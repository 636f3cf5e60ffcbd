/** Values and specification functions of the resource layer (internal/link/resource.go):
    one payload is cut into numbered parts, sent under a sliding window and acknowledged
    selectively. The classes in ResourceEndpoints are proved against these functions and
    ResourceProtocol reasons about whole runs with them. */
module ResourceModel {
  import opened Basics

  type Bytes = seq<bv8>
  type Id = seq<bv8>
  type Hash = Bytes -> Bytes

  datatype Frame =
    | Adv(id: Id, total: nat, partSize: nat, whole: Bytes)
    | Part(id: Id, index: nat, data: Bytes)
    | Ack(id: Id, base: nat, bitmap: Bytes)
    | Done(id: Id)

  const MAX_PARTS: nat := 0x1_0000
  const MAX_PART_SIZE: nat := 0x10_0000
  const MAX_RESOURCE_BYTES: nat := 0x1000_0000
  const MAX_ACK_BITMAP_BYTES: nat := 32
  const MAX_INFLIGHT: nat := 256
  const MAX_FINISHED: nat := 1024
  const FINISHED_TTL: nat := 120_000_000_000
  const DEFAULT_WINDOW: nat := 32
  const DEFAULT_RTO: nat := 250_000_000

  function Min(a: nat, b: nat): nat { if a < b then a else b }

  function CountTrue(bits: seq<bool>): nat {
    if bits == [] then 0
    else CountTrue(bits[..|bits| - 1]) + if bits[|bits| - 1] then 1 else 0
  }

  /** The lowest index at or above from that is not marked. */
  function FirstGap(got: seq<bool>, from: nat): nat
    decreases |got| - from
  {
    if from < |got| && got[from] then FirstGap(got, from + 1) else from
  }

  lemma {:induction false} FirstGapIsLowest(got: seq<bool>, from: nat)
    requires from <= |got|
    ensures from <= FirstGap(got, from) <= |got|
    ensures forall i :: from <= i < FirstGap(got, from) ==> got[i]
    ensures FirstGap(got, from) < |got| ==> !got[FirstGap(got, from)]
    decreases |got| - from
  {
    if from < |got| && got[from] { FirstGapIsLowest(got, from + 1); }
  }

  lemma {:induction false} CountBounds(bits: seq<bool>)
    ensures CountTrue(bits) <= |bits|
    ensures CountTrue(bits) == |bits| <==> forall i :: 0 <= i < |bits| ==> bits[i]
  {
    if bits != [] {
      var front := bits[..|bits| - 1];
      CountBounds(front);
      assert forall i :: 0 <= i < |front| ==> front[i] == bits[i];
    }
  }

  lemma {:induction false} NothingCounted(bits: seq<bool>)
    requires forall i :: 0 <= i < |bits| ==> !bits[i]
    ensures CountTrue(bits) == 0
  {
    if bits != [] { NothingCounted(bits[..|bits| - 1]); }
  }

  lemma {:induction false} CountMark(bits: seq<bool>, i: nat)
    requires i < |bits| && !bits[i]
    ensures CountTrue(bits[i := true]) == CountTrue(bits) + 1
  {
    var last := |bits| - 1;
    if i == last {
      assert bits[i := true][..last] == bits[..last];
    } else {
      assert bits[i := true][..last] == bits[..last][i := true];
      CountMark(bits[..last], i);
    }
  }

  // ---- selective bitmap ------------------------------------------------------

  /** Whether bit i of a bitmap is set; bits past its end are clear. */
  predicate Bit(bitmap: Bytes, i: nat) {
    i / 8 < |bitmap| && bitmap[i / 8] & ((1 as bv8) << (i % 8)) != 0
  }

  /** Whether an acknowledgement says that part i is in. */
  predicate Covers(ack: Frame, i: nat)
    requires ack.Ack?
  {
    i < ack.base || Bit(ack.bitmap, i - ack.base)
  }

  // ---- sender -----------------------------------------------------------------

  datatype Outcome = Pending | Delivered | TimedOut

  datatype Sender = Sender(
    id: Id, parts: seq<Bytes>, whole: Bytes, window: nat, rto: int,
    base: nat, acked: seq<bool>, sentAt: seq<int>, sentHigh: nat, outcome: Outcome)
  {
    predicate Shape() {
      |acked| == |parts| == |sentAt| && sentHigh <= |parts| && 0 < |parts| && 0 < window
    }

    function Limit(): nat { Min(base + window, |parts|) }

    /** The parts that newly fall inside the window, and the state after sending them. */
    function FillFrames(): seq<Frame>
      requires Shape()
    {
      if sentHigh < Limit()
      then seq(Limit() - sentHigh, j requires 0 <= j < Limit() - sentHigh => PartFrame(sentHigh + j))
      else []
    }

    function Filled(now: int): Sender
      requires Shape()
    {
      this.(sentAt := seq(|parts|, i requires 0 <= i < |parts| => if sentHigh <= i < Limit() then now else sentAt[i]),
            sentHigh := if sentHigh < Limit() then Limit() else sentHigh)
    }

    function PartFrame(i: nat): Frame
      requires i < |parts|
    {
      Part(id, i, parts[i])
    }

    predicate Due(i: nat, now: int)
      requires Shape()
    {
      base <= i < Min(base + window, sentHigh) && !acked[i] && now - sentAt[i] >= rto
    }

    /** The overdue parts from index i up, in order. */
    function DueFrames(i: nat, now: int): seq<Frame>
      requires Shape()
      decreases |parts| - i
    {
      if i >= Min(base + window, sentHigh) then []
      else (if Due(i, now) then [PartFrame(i)] else []) + DueFrames(i + 1, now)
    }

    function Resent(now: int): Sender
      requires Shape()
    {
      this.(sentAt := seq(|parts|, i requires 0 <= i < |parts| => if Due(i, now) then now else sentAt[i]))
    }

    function Acked(ack: Frame): Sender
      requires Shape() && ack.Ack?
    {
      this.(acked := seq(|parts|, i requires 0 <= i < |parts| => acked[i] || Covers(ack, i)),
            base := if ack.base > base then ack.base else base)
    }

    function Finish(o: Outcome): Sender { if outcome == Pending then this.(outcome := o) else this }

    /** What a control frame does to the sender; frames of other resources are ignored. */
    function Feed(f: Frame, now: int): (Sender, seq<Frame>)
      requires Shape()
    {
      if f.id != id then (this, [])
      else match f {
        case Ack(_, _, _) =>
          var s := Acked(f);
          if s.base >= |parts| then (s.Finish(Delivered), []) else (s.Filled(now), s.FillFrames())
        case Done(_) => (Finish(Delivered), [])
        case _ => (this, [])
      }
    }

    /** One pass of the retransmission timer. */
    function Tick(now: int): (Sender, seq<Frame>)
      requires Shape()
    {
      (Resent(now).Filled(now), DueFrames(base, now) + Resent(now).FillFrames())
    }
  }

  // ---- receiver ---------------------------------------------------------------

  datatype RecvState = RecvState(total: nat, whole: Bytes, parts: seq<Bytes>, got: seq<bool>, count: nat, base: nat)
  {
    /** base is the lowest part not yet held and count is how many are held. */
    ghost predicate Valid() {
      && total == |got| == |parts|
      && base <= total
      && count == CountTrue(got)
      && (forall i :: 0 <= i < base ==> got[i])
      && (base < total ==> !got[base])
    }

    function Absorb(index: nat, data: Bytes): RecvState
      requires index < |got| == |parts|
    {
      if got[index] then this
      else
        var got' := got[index := true];
        this.(got := got', parts := parts[index := data], count := count + 1, base := FirstGap(got', base))
    }
  }

  lemma {:induction false} AbsorbValid(st: RecvState, index: nat, data: Bytes)
    requires st.Valid() && index < st.total
    ensures st.Absorb(index, data).Valid()
  {
    if !st.got[index] {
      CountMark(st.got, index);
      FirstGapIsLowest(st.got[index := true], st.base);
    }
  }

  /** The acknowledgement a receiver in state st sends: its base, and one bit for each of
      the next 256 parts, with trailing zero bytes trimmed. */
  predicate IsAckOf(id: Id, st: RecvState, f: Frame)
    requires st.total == |st.got|
  {
    && f.Ack? && f.id == id && f.base == st.base
    && |f.bitmap| <= MAX_ACK_BITMAP_BYTES
    && (f.bitmap != [] ==> f.bitmap[|f.bitmap| - 1] != 0)
    && (forall i: nat :: i < 8 * MAX_ACK_BITMAP_BYTES ==>
          (Bit(f.bitmap, i) <==> st.base + i < st.total && st.got[st.base + i]))
  }

  datatype Receiver = Receiver(byID: map<Id, RecvState>, finished: map<Id, int>)
  {
    ghost predicate Valid() { forall id | id in byID :: byID[id].Valid() }
  }

  function NewState(f: Frame): RecvState
    requires f.Adv?
  {
    RecvState(f.total, f.whole, seq(f.total, _ => []), seq(f.total, _ => false), 0, 0)
  }

  predicate Acceptable(f: Frame)
    requires f.Adv?
  {
    && 0 < f.total <= MAX_PARTS
    && f.partSize <= MAX_PART_SIZE
    && (f.partSize > 0 ==> f.total <= MAX_RESOURCE_BYTES / f.partSize)
  }

  function FeedAdv(r: Receiver, f: Frame): Receiver
    requires f.Adv?
  {
    if Acceptable(f) && f.id !in r.byID && |r.byID| < MAX_INFLIGHT
    then r.(byID := r.byID[f.id := NewState(f)])
    else r
  }

  function Fresh(finished: map<Id, int>, now: int): map<Id, int> {
    map k | k in finished && now - finished[k] < FINISHED_TTL :: finished[k]
  }

  /** finished' is a possible memory of completed resources after id is added at now: when
      the memory is full, expired ids go first and then arbitrary ones until there is room. */
  ghost predicate Remembered(finished: map<Id, int>, id: Id, now: int, finished': map<Id, int>) {
    if |finished| < MAX_FINISHED then finished' == finished[id := now]
    else exists kept: set<Id> :: IsKept(finished, now, kept) && finished' == KeepIn(finished, kept)[id := now]
  }

  ghost predicate IsKept(finished: map<Id, int>, now: int, kept: set<Id>) {
    var live := Fresh(finished, now).Keys;
    kept <= live && if |live| < MAX_FINISHED then kept == live else |kept| == MAX_FINISHED - 1
  }

  function KeepIn(finished: map<Id, int>, kept: set<Id>): map<Id, int> {
    map k | k in finished && k in kept :: finished[k]
  }

  /** The receiver's reaction to a PART frame. */
  ghost predicate FeedPart(hash: Hash, r: Receiver, f: Frame, now: int,
                           r': Receiver, replies: seq<Frame>, done: Option<Bytes>)
    requires f.Part?
    requires r.Valid()
  {
    if f.id !in r.byID then
      r' == r && done == None && replies == (if f.id in r.finished then [Done(f.id)] else [])
    else if f.index >= r.byID[f.id].total then
      r' == r && done == None && replies == []
    else
      assert r.byID[f.id].Valid();
      var st := r.byID[f.id].Absorb(f.index, f.data);
      && |replies| > 0 && IsAckOf(f.id, st, replies[0])
      && if st.count == st.total && hash(Concat(st.parts)) == st.whole then
           && done == Some(Concat(st.parts))
           && replies == [replies[0], Done(f.id)]
           && r'.byID == r.byID - {f.id}
           && Remembered(r.finished, f.id, now, r'.finished)
         else
           && done == None && replies == [replies[0]]
           && r' == r.(byID := r.byID[f.id := st])
  }

  ghost predicate FeedReceiver(hash: Hash, r: Receiver, f: Frame, now: int,
                               r': Receiver, replies: seq<Frame>, done: Option<Bytes>)
    requires r.Valid()
  {
    match f
    case Adv(_, _, _, _) => r' == FeedAdv(r, f) && replies == [] && done == None
    case Part(_, _, _) => FeedPart(hash, r, f, now, r', replies, done)
    case _ => r' == r && replies == [] && done == None
  }
}
