/** What a receiver lets peers make it hold (internal/link/resource.go:401-445, 508-532, 559-580). */
module ResourceLimits {
  import opened Basics
  import opened ResourceModel
  import opened ResourceProtocol
  import ResourceRounds

  /** An advertisement is acceptable exactly if it announces 1 to 65536 parts of at most 1 MiB that
      together stay within 256 MiB. */
  lemma {:induction false} AcceptableIff(f: Frame)
    requires f.Adv?
    ensures Acceptable(f) <==> 1 <= f.total <= 65536 && f.partSize <= 1048576 && f.total * f.partSize <= 268435456
  {
    if f.partSize > 0 { QuotientBound(f.total, MAX_RESOURCE_BYTES, f.partSize); }
  }

  lemma QuotientBound(t: nat, n: nat, d: nat)
    requires d > 0
    ensures t <= n / d <==> t * d <= n
  {
    var q := n / d;
    assert q * d <= n < (q + 1) * d;
    if t <= q {
      assert t * d <= q * d;
    } else {
      assert t * d >= (q + 1) * d;
    }
  }

  /** An advertisement opens a resource exactly if it is acceptable, the id is not open and fewer
      than 256 are; it starts with nothing held, and never disturbs another one. */
  lemma {:induction false} OpensIff(hash: Hash, r: Receiver, f: Frame, now: int, r': Receiver, replies: seq<Frame>,
                                    done: Option<Bytes>, id: Id)
    requires r.Valid() && f.Adv? && FeedReceiver(hash, r, f, now, r', replies, done)
    ensures id !in r.byID ==> (id in r'.byID <==> id == f.id && Acceptable(f) && |r.byID| < 256)
    ensures id in r.byID ==> id in r'.byID && r'.byID[id] == r.byID[id]
    ensures id in r'.byID && id !in r.byID ==>
              && r'.byID[id].total == f.total && r'.byID[id].whole == f.whole && r'.byID[id].base == 0
              && forall i :: 0 <= i < |r'.byID[id].got| ==> !r'.byID[id].got[i]
    ensures replies == [] && done == None
  {
  }

  ghost predicate Bounded(r: Receiver) {
    && |r.byID| <= 256 && |r.finished| <= 1024
    && forall id | id in r.byID :: 1 <= r.byID[id].total <= 65536 && |r.byID[id].parts| == r.byID[id].total
  }

  /** Whatever arrives, a receiver has at most 256 resources open, of at most 65536 parts each, and
      remembers at most 1024 completed ones. */
  lemma {:induction false} StaysBounded(hash: Hash, r: Receiver, f: Frame, now: int, r': Receiver, replies: seq<Frame>,
                                        done: Option<Bytes>)
    requires r.Valid() && Bounded(r) && FeedReceiver(hash, r, f, now, r', replies, done)
    ensures Bounded(r')
  {
    ResourceRounds.ForgetsOnlyWhenFull(hash, r, f, now, r', replies, done, f.id);
    OpenCount(hash, r, f, now, r', replies, done);
    forall id | id in r'.byID
      ensures 1 <= r'.byID[id].total <= 65536 && |r'.byID[id].parts| == r'.byID[id].total
    {
      OpenSize(hash, r, f, now, r', replies, done, id);
    }
  }

  lemma OpenCount(hash: Hash, r: Receiver, f: Frame, now: int, r': Receiver, replies: seq<Frame>, done: Option<Bytes>)
    requires r.Valid() && |r.byID| <= 256 && FeedReceiver(hash, r, f, now, r', replies, done)
    ensures |r'.byID| <= 256
  {
    OpenKeys(hash, r, f, now, r', replies, done);
    if r'.byID.Keys == r.byID.Keys + {f.id} && f.id !in r.byID {
      assert |r'.byID.Keys| == |r.byID.Keys| + 1;
    } else {
      SubsetCard(r'.byID.Keys, r.byID.Keys);
    }
    assert |r.byID| == |r.byID.Keys| && |r'.byID| == |r'.byID.Keys|;
  }

  /** An advertisement adds at most its id, and only if there is room; nothing else adds any. */
  lemma OpenKeys(hash: Hash, r: Receiver, f: Frame, now: int, r': Receiver, replies: seq<Frame>, done: Option<Bytes>)
    requires r.Valid() && FeedReceiver(hash, r, f, now, r', replies, done)
    ensures r'.byID.Keys <= r.byID.Keys || (r'.byID.Keys == r.byID.Keys + {f.id} && |r.byID| < 256)
  {
    if f.Part? { PartKeys(hash, r, f, now, r', replies, done); }
  }

  lemma PartKeys(hash: Hash, r: Receiver, f: Frame, now: int, r': Receiver, replies: seq<Frame>, done: Option<Bytes>)
    requires r.Valid() && f.Part? && FeedPart(hash, r, f, now, r', replies, done)
    ensures r'.byID.Keys <= r.byID.Keys
  {
    forall k | k in r'.byID
      ensures k in r.byID
    {
    }
  }

  lemma OpenSize(hash: Hash, r: Receiver, f: Frame, now: int, r': Receiver, replies: seq<Frame>, done: Option<Bytes>,
                 id: Id)
    requires r.Valid() && Bounded(r) && FeedReceiver(hash, r, f, now, r', replies, done) && id in r'.byID
    ensures 1 <= r'.byID[id].total <= 65536 && |r'.byID[id].parts| == r'.byID[id].total
  {
    if id in r.byID { assert r.byID[id].Valid(); }
    if f.Adv? { AcceptableIff(f); }
    if f.id != id { ForeignFrame(hash, r, f, now, r', replies, done, id); }
  }

  /** An acknowledgement reports base and, of the 256 parts from there on, exactly those held; no
      shorter bitmap reports the same. */
  lemma {:induction false} AckIsShortest(id: Id, st: RecvState, f: Frame, other: Bytes)
    requires st.Valid() && IsAckOf(id, st, f)
    requires forall i: nat | i < 256 :: Bit(other, i) <==> st.base + i < st.total && st.got[st.base + i]
    ensures forall i: nat | i < 256 :: Bit(f.bitmap, i) <==> st.base + i < st.total && st.got[st.base + i]
    ensures |f.bitmap| <= |other| && |f.bitmap| <= 32
  {
    if f.bitmap != [] {
      var n := |f.bitmap| - 1;
      var k := SomeBit(f.bitmap[n]);
      assert Bit(f.bitmap, 8 * n + k);
      assert Bit(other, 8 * n + k);
    }
  }

  lemma SomeBit(b: bv8) returns (k: nat)
    requires b != 0
    ensures k < 8 && b & ((1 as bv8) << k) != 0
  {
    if b & 1 != 0 { return 0; }
    if b & 2 != 0 { return 1; }
    if b & 4 != 0 { return 2; }
    if b & 8 != 0 { return 3; }
    if b & 16 != 0 { return 4; }
    if b & 32 != 0 { return 5; }
    if b & 64 != 0 { return 6; }
    return 7;
  }
}
