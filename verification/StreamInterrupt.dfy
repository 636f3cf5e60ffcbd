/** How many interruptions a resumable stream survives. An interrupted attempt delivers a prefix
    of what it sends from the block the receiver asked for. It cuts at most one shard in two, so
    up to m interruptions (m parity shards) always leave the stream completable; a run of m + 1
    that each cut a further shard of one block loses it for good. */
module StreamInterrupt {
  import opened Basics
  import opened StreamModel
  import opened StreamSafety
  import opened StreamResume
  import opened StreamSender

  /** Different sealings of a shard that travels in several pieces differ in every piece. */
  lemma PiecesDiffer(s: Stream, b: nat, i: nat, t: nat, u: nat, j: nat, v: Bytes)
    requires s.Sound() && b < |s.Blocks()| && t != u && s.Count(b, i) > 1
    requires IsPiece(s, b, i, t, j, v)
    ensures !IsPiece(s, b, i, u, j, v)
  {
    CountFixed(s, b, i, t);
    CountFixed(s, b, i, u);
    var n := s.Count(b, i);
    var ours := seq(n, _ => t);
    var mixed := ours[j := u];
    var other := if j == 0 then 1 else 0;
    assert mixed[other] != mixed[j];
    MixOpens(s, b, i, ours);
    MixOpens(s, b, i, mixed);
    if IsPiece(s, b, i, u, j, v) { SamePieceSameMix(s, b, i, ours, j, u, v); }
  }

  lemma SamePieceSameMix(s: Stream, b: nat, i: nat, ts: seq<nat>, j: nat, u: nat, v: Bytes)
    requires b < |s.Blocks()| && j < |ts| && IsPiece(s, b, i, ts[j], j, v) && IsPiece(s, b, i, u, j, v)
    ensures MixOf(s, b, i, ts) == MixOf(s, b, i, ts[j := u])
  {
    assert s.codec.Mixed(s.Shard(b, i), i, ts) == s.codec.Mixed(s.Shard(b, i), i, ts[j := u]);
  }

  // ---- a shard that does not open is never replaced -----------------------------------------

  function Spoiled(s: Stream, blk: Block): set<nat> {
    set i | i in blk.chunks && s.codec.open(blk.chunks[i], i) == None
  }

  lemma SpoiledStays(s: Stream, a: Assembler, b: nat, p: Packet)
    requires s.Sound() && Inv(s, a) && s.Genuine(p) && a.nextFlush <= b < |s.Blocks()| && !BlockAt(a, b).ready
    requires |Spoiled(s, BlockAt(a, b))| > s.codec.m
    ensures var a' := Added(s.codec, a, p);
      && a'.nextFlush <= b && !BlockAt(a', b).ready && Spoiled(s, BlockAt(a, b)) <= Spoiled(s, BlockAt(a', b))
  {
    if !a.done && !BlockFor(a, p).ready {
      var t: nat :| s.IsWire(p, p.block, p.shard, t, p.subIndex);
      var next := Settled(s.codec, Absorbed(BlockFor(a, p), p));
      var mid := a.(blocks := a.blocks[p.block := next]);
      if b == p.block {
        assert b in a.blocks by { assert BlockAt(a, b).chunks != map[]; }
        SpoiledBlockStays(s, t, p, a.blocks[b]);
      }
      FlushedWereReady(mid);
      assert BlockAt(mid, b) == if b == p.block then next else BlockAt(a, b);
    }
  }

  lemma SpoiledShardStays(s: Stream, b: nat, t: nat, blk: Block, i: nat, p: Packet)
    requires b < |s.Blocks()| && ShardOk(s, b, blk, i) && i in Spoiled(s, blk)
    ensures i in Spoiled(s, Absorbed(blk, p)) && i in Bad(s, b, t, Absorbed(blk, p))
  {
  }

  lemma SpoiledBlockStays(s: Stream, t: nat, p: Packet, blk: Block)
    requires s.Sound() && FromAttempt(s, t, p) && BlockInv(s, p.block, blk) && !blk.ready
    requires |Spoiled(s, blk)| > s.codec.m
    ensures !Settled(s.codec, Absorbed(blk, p)).ready
    ensures Spoiled(s, blk) <= Spoiled(s, Settled(s.codec, Absorbed(blk, p)))
  {
    var b, next := p.block, Absorbed(blk, p);
    AbsorbKeeps(s, b, p.shard, t, p.subIndex, p, blk);
    SettledBlock(s, b, next);
    forall i | i in Spoiled(s, blk)
      ensures i in Spoiled(s, next) && i in Bad(s, b, t, next)
    {
      assert ShardOk(s, b, blk, i);
      SpoiledShardStays(s, b, t, blk, i, p);
    }
    SubsetCard(Spoiled(s, blk), Bad(s, b, t, next));
    TooManyBad(s, b, t, next);
  }

  /** Once more shards of a block are spoiled than it has parity, nothing that can arrive, from
      any number of further attempts, ever writes that block or completes the stream. */
  lemma {:induction false} SpoiledForever(s: Stream, a: Assembler, b: nat, ps: seq<Packet>)
    requires s.Sound() && Inv(s, a) && (forall p | p in ps :: s.Genuine(p)) && a.nextFlush <= b < |s.Blocks()|
    requires !BlockAt(a, b).ready && |Spoiled(s, BlockAt(a, b))| > s.codec.m
    ensures var a' := AddedAll(s.codec, a, ps);
      && Inv(s, a') && !a'.done && a'.nextFlush <= b && !BlockAt(a', b).ready
      && Spoiled(s, BlockAt(a, b)) <= Spoiled(s, BlockAt(a', b))
  {
    if ps != [] {
      var front, p := ps[..|ps| - 1], ps[|ps| - 1];
      SpoiledForever(s, a, b, front);
      var mid := AddedAll(s.codec, a, front);
      SubsetCard(Spoiled(s, BlockAt(a, b)), Spoiled(s, BlockAt(mid, b)));
      SpoiledStays(s, mid, b, p);
      AddKeeps(s, mid, p);
    }
  }

  // ---- interruptions --------------------------------------------------------------------------

  /** v is piece j of shard i as sealed by some attempt before t. */
  ghost predicate Older(s: Stream, b: nat, i: nat, t: nat, j: nat, v: Bytes)
    requires b < |s.Blocks()|
  {
    exists u: nat :: u < t && IsPiece(s, b, i, u, j, v)
  }

  /** Every piece held for block b was sent before attempt t. */
  ghost predicate OnlyOlder(s: Stream, a: Assembler, b: nat, t: nat)
    requires b < |s.Blocks()|
  {
    !BlockAt(a, b).ready ==>
      forall i: nat, j: nat | j in Held(BlockAt(a, b), i) :: Older(s, b, i, t, j, Held(BlockAt(a, b), i)[j])
  }

  /** Each piece held for block b in a' was already held in a or has just arrived. */
  ghost predicate HeldFrom(s: Stream, t: nat, a: Assembler, ps: seq<Packet>, a': Assembler, b: nat)
    requires b < |s.Blocks()|
  {
    forall i: nat, j: nat | j in Held(BlockAt(a', b), i) ::
      var v := Held(BlockAt(a', b), i)[j];
      || (j in Held(BlockAt(a, b), i) && Held(BlockAt(a, b), i)[j] == v)
      || (HasPacket(ps, b, i, j) && IsPiece(s, b, i, t, j, v))
  }

  lemma HeldFromStep(s: Stream, t: nat, a: Assembler, ps: seq<Packet>, a': Assembler, p: Packet, b: nat,
                     ps': seq<Packet>, next: Assembler)
    requires Inv(s, a') && FromAttempt(s, t, p) && b < |s.Blocks()| && ps' == ps + [p] && next == Added(s.codec, a', p)
    requires b >= a'.nextFlush && !BlockAt(a', b).ready ==> HeldFrom(s, t, a, ps, a', b)
    ensures b >= next.nextFlush && !BlockAt(next, b).ready ==> HeldFrom(s, t, a, ps', next, b)
  {
    MorePackets(ps, p);
    if !a'.done && !BlockFor(a', p).ready {
      var blk := Settled(s.codec, Absorbed(BlockFor(a', p), p));
      var mid := a'.(blocks := a'.blocks[p.block := blk]);
      FlushedWereReady(mid);
      if b >= next.nextFlush && !BlockAt(next, b).ready {
        assert BlockAt(next, b) == BlockAt(mid, b);
        if b == p.block {
          assert IsPiece(s, b, p.shard, t, p.subIndex, p.payload);
          assert blk == Absorbed(BlockFor(a', p), p);
          HeldGrowsBy(BlockFor(a', p), p);
        }
      }
    }
  }

  lemma MorePackets(ps: seq<Packet>, p: Packet)
    ensures forall b: nat, i: nat, j: nat | HasPacket(ps, b, i, j) :: HasPacket(ps + [p], b, i, j)
    ensures HasPacket(ps + [p], p.block, p.shard, p.subIndex)
  {
    forall b: nat, i: nat, j: nat | HasPacket(ps, b, i, j)
      ensures HasPacket(ps + [p], b, i, j)
    {
      var q :| q in ps && q.block == b && q.shard == i && q.subIndex == j;
      assert q in ps + [p];
    }
    assert p in ps + [p];
  }

  lemma HeldGrowsBy(blk: Block, p: Packet)
    ensures forall i: nat, j: nat | j in Held(Absorbed(blk, p), i) ::
      || (j in Held(blk, i) && Held(blk, i)[j] == Held(Absorbed(blk, p), i)[j])
      || (i == p.shard && j == p.subIndex && Held(Absorbed(blk, p), i)[j] == p.payload)
  {
  }

  lemma {:induction false} HeldFromAll(s: Stream, t: nat, a: Assembler, ps: seq<Packet>, b: nat)
    requires s.Sound() && Inv(s, a) && (forall p | p in ps :: FromAttempt(s, t, p)) && b < |s.Blocks()|
    ensures var a' := AddedAll(s.codec, a, ps);
      b >= a'.nextFlush && !BlockAt(a', b).ready ==> HeldFrom(s, t, a, ps, a', b)
  {
    if ps != [] {
      var front, p := ps[..|ps| - 1], ps[|ps| - 1];
      assert front + [p] == ps && p in ps && FromAttempt(s, t, p);
      assert forall q | q in front :: q in ps;
      var mid, next := AddedAll(s.codec, a, front), AddedAll(s.codec, a, ps);
      HeldFromAll(s, t, a, front, b);
      NextFlushGrows(s, t, a, front);
      HeldFromStep(s, t, a, front, mid, p, b, ps, next);
    }
  }

  /** An interrupted attempt costs a block at most one shard. */
  lemma InterruptionCosts(s: Stream, t: nat, a: Assembler, ps: seq<Packet>, b: nat, b0: nat, i0: nat)
    requires s.Sound() && Inv(s, a) && (forall p | p in ps :: FromAttempt(s, t, p)) && CutAt(s, ps, b0, i0)
    requires a.nextFlush <= b < |s.Blocks()| && OnlyOlder(s, a, b, t)
    ensures var a' := AddedAll(s.codec, a, ps);
      && (b >= a'.nextFlush ==> OnlyOlder(s, a', b, t + 1))
      && (b >= a'.nextFlush ==> |BadAt(s, a', b, t + 1)| <= |BadAt(s, a, b, t)| + 1)
  {
    var a' := AddedAll(s.codec, a, ps);
    AlongAll(s, t, a, ps, b);
    HeldFromAll(s, t, a, ps, b);
    var blk := BlockAt(a', b);
    if b >= a'.nextFlush {
      if !blk.ready {
        ReadyBefore(s, t, a, ps, b);
        OlderStays(s, t, a, ps, a', b);
        forall i | i in Bad(s, b, t + 1, blk) && i != i0
          ensures i in Bad(s, b, t, blk)
        {
          NotNewlyBad(s, t, a, ps, a', b, i, b0, i0);
        }
        SubsetCard(Bad(s, b, t + 1, blk), Bad(s, b, t, blk) + {i0});
      }
    }
  }

  /** A block that is not ready now was not ready before. */
  lemma {:induction false} ReadyBefore(s: Stream, t: nat, a: Assembler, ps: seq<Packet>, b: nat)
    requires s.Sound() && Inv(s, a) && (forall p | p in ps :: FromAttempt(s, t, p)) && a.nextFlush <= b < |s.Blocks()|
    requires b >= AddedAll(s.codec, a, ps).nextFlush && !BlockAt(AddedAll(s.codec, a, ps), b).ready
    ensures !BlockAt(a, b).ready
  {
    if ps != [] {
      var front, p := ps[..|ps| - 1], ps[|ps| - 1];
      var mid := AddedAll(s.codec, a, front);
      NextFlushGrows(s, t, a, front);
      if !mid.done && !BlockFor(mid, p).ready {
        FlushedWereReady(mid.(blocks := mid.blocks[p.block := Settled(s.codec, Absorbed(BlockFor(mid, p), p))]));
      }
      ReadyBefore(s, t, a, front, b);
    }
  }

  /** A shard that was not cut is bad for the next attempt only if it was bad for this one. */
  lemma NotNewlyBad(s: Stream, t: nat, a: Assembler, ps: seq<Packet>, a': Assembler, b: nat, i: nat, b0: nat, i0: nat)
    requires s.Sound() && CutAt(s, ps, b0, i0) && Inv(s, a') && b < |s.Blocks()| && b >= a'.nextFlush
    requires !BlockAt(a', b).ready && !BlockAt(a, b).ready && OnlyOlder(s, a, b, t)
    requires HeldFrom(s, t, a, ps, a', b) && Along(s, t, a, ps, a', b)
    requires i in Bad(s, b, t + 1, BlockAt(a', b)) && i != i0
    ensures i in Bad(s, b, t, BlockAt(a', b))
  {
    var blk := BlockAt(a', b);
    if i in blk.subParts && !Foreign(s, b, i, t, blk.subParts[i]) {
      assert b in a'.blocks && ShardOk(s, b, blk, i);
      var parts := blk.subParts[i];
      assert parts != map[] && Held(blk, i) == parts;
      var j :| j in parts;
      assert IsPiece(s, b, i, t, j, parts[j]);
      if j in Held(BlockAt(a, b), i) && Held(BlockAt(a, b), i)[j] == parts[j] {
        var u: nat :| u < t && IsPiece(s, b, i, u, j, parts[j]);
        PiecesDiffer(s, b, i, u, t, j, parts[j]);
      } else {
        assert HasPacket(ps, b, i, j);
        assert !NoneOf(ps, b, i);
        assert (b, i) != (b0, i0);
        assert Whole(s, ps, b, i);
        forall l: nat | l < s.Count(b, i)
          ensures l in parts
        {
          assert HasPacket(ps, b, i, l);
          var p :| p in ps && p.block == b && p.shard == i && p.subIndex == l;
          assert In(blk, p.shard, p.subIndex);
        }
        AllHeld(s, b, i, parts);
      }
    }
  }

  lemma OlderStays(s: Stream, t: nat, a: Assembler, ps: seq<Packet>, a': Assembler, b: nat)
    requires b < |s.Blocks()| && OnlyOlder(s, a, b, t) && HeldFrom(s, t, a, ps, a', b) && !BlockAt(a, b).ready
    ensures OnlyOlder(s, a', b, t + 1)
  {
  }

  /** The assembler after a number of attempts, each possibly interrupted. */
  function After(s: Stream, attempts: seq<seq<Packet>>): Assembler {
    if attempts == [] then Empty()
    else AddedAll(s.codec, After(s, attempts[..|attempts| - 1]), attempts[|attempts| - 1])
  }

  /** What arrived of attempt t: all of it up to where it was cut off. The attempt starts at the
      block the receiver, having seen the earlier attempts, still needs. */
  ghost predicate Interrupted(s: Stream, attempts: seq<seq<Packet>>, t: nat)
    requires t < |attempts|
  {
    attempts[t] <= Sending(s, t, After(s, attempts[..t]).nextFlush)
  }

  ghost predicate AllInterrupted(s: Stream, attempts: seq<seq<Packet>>) {
    forall t: nat | t < |attempts| :: Interrupted(s, attempts, t)
  }

  lemma EarlierInterrupted(s: Stream, attempts: seq<seq<Packet>>, n: nat)
    requires AllInterrupted(s, attempts) && n <= |attempts|
    ensures AllInterrupted(s, attempts[..n])
  {
    forall t: nat | t < n
      ensures Interrupted(s, attempts[..n], t)
    {
      assert Interrupted(s, attempts, t) && attempts[..n][..t] == attempts[..t];
    }
  }

  /** n interrupted attempts leave at most n bad shards in a block. */
  lemma {:induction false} InterruptionsCost(s: Stream, attempts: seq<seq<Packet>>, b: nat)
    requires s.Sound() && b < |s.Blocks()| && AllInterrupted(s, attempts)
    ensures var a := After(s, attempts);
      && Inv(s, a)
      && (b >= a.nextFlush ==> OnlyOlder(s, a, b, |attempts|) && |BadAt(s, a, b, |attempts|)| <= |attempts|)
  {
    if attempts == [] {
      EmptyInv(s);
      assert BadAt(s, Empty(), b, 0) == {};
    } else {
      var t := |attempts| - 1;
      EarlierInterrupted(s, attempts, t);
      InterruptionsCost(s, attempts[..t], b);
      var a, ps := After(s, attempts[..t]), attempts[t];
      assert Interrupted(s, attempts, t);
      SendingInOrder(s, t, a.nextFlush);
      var sent := Sending(s, t, a.nextFlush);
      assert sent[..|ps|] == ps;
      var b0, i0 := PrefixIsCut(s, t, a.nextFlush, sent, |ps|);
      assert forall p | p in ps :: p in sent;
      NextFlushGrows(s, t, a, ps);
      if b >= a.nextFlush { InterruptionCosts(s, t, a, ps, b, b0, i0); }
    }
  }

  /** After at most m interrupted attempts, wherever each was cut, one attempt that gets through
      completes the stream with exactly the original content. */
  lemma {:induction false} SurvivesParityInterruptions(s: Stream, attempts: seq<seq<Packet>>, last: seq<Packet>)
    requires s.Sound() && |attempts| <= s.codec.m && AllInterrupted(s, attempts)
    requires last == Sending(s, |attempts|, After(s, attempts).nextFlush)
    ensures var a := AddedAll(s.codec, After(s, attempts), last); a.done && a.sink == s.data && a.closes == 1
  {
    var a := After(s, attempts);
    InterruptionsCost(s, attempts, 0);
    forall b: nat | a.nextFlush <= b < |s.Blocks()|
      ensures |BadAt(s, a, b, |attempts|)| <= s.codec.m
    {
      InterruptionsCost(s, attempts, b);
    }
    SendingInOrder(s, |attempts|, a.nextFlush);
    ResumeCompletesIff(s, |attempts|, a, last);
  }

  /** Shards that travel in one piece are never spoiled, however often the stream is resumed. */
  lemma {:induction false} UnsplitNeverBad(s: Stream, a: Assembler, b: nat, t: nat)
    requires s.Sound() && Inv(s, a) && b < |s.Blocks()| && forall i: nat | i < s.codec.Total() :: s.Count(b, i) == 1
    ensures BadAt(s, a, b, t) == {}
  {
    var blk := BlockAt(a, b);
    if b in a.blocks && !blk.ready {
      forall i: nat | i < s.codec.Total()
        ensures !BadShard(s, b, t, blk, i)
      {
        assert ShardOk(s, b, blk, i);
        UnsplitShardGood(s, b, t, blk, i);
      }
    }
  }

  lemma UnsplitShardGood(s: Stream, b: nat, t: nat, blk: Block, i: nat)
    requires s.Sound() && b < |s.Blocks()| && s.Count(b, i) == 1 && ShardOk(s, b, blk, i)
    ensures !BadShard(s, b, t, blk, i)
  {
    if i in blk.chunks {
      var ts: seq<nat> :| |ts| == s.Count(b, i) && blk.chunks[i] == MixOf(s, b, i, ts);
      MixOpens(s, b, i, ts);
    }
  }

  // ---- one interruption too many -----------------------------------------------------------------

  /** Attempt t, cut off after the first piece of shard t. */
  function CutShort(s: Stream, t: nat): seq<Packet> { OfBlock(s, t, 0, t) + [s.Wire(0, t, t, 0)] }

  lemma {:induction false} BlockPrefix(s: Stream, t: nat, n: nat, m: nat)
    requires n < m
    ensures OfBlock(s, t, 0, n) + OfShard(s, t, 0, n) <= OfBlock(s, t, 0, m)
  {
    if n + 1 < m { BlockPrefix(s, t, n, m - 1); }
  }

  lemma {:induction false} BlocksPrefix(s: Stream, t: nat, to: nat)
    requires 0 < to <= |s.Blocks()|
    ensures OfBlock(s, t, 0, s.codec.Total()) <= OfBlocks(s, t, 0, to)
  {
    if to == 1 {
      assert OfBlocks(s, t, 0, 0) == [];
    } else {
      BlocksPrefix(s, t, to - 1);
    }
  }

  lemma CutShortIsPrefix(s: Stream, t: nat)
    requires t < s.codec.Total()
    ensures CutShort(s, t) <= Sending(s, t, 0)
  {
    BlockPrefix(s, t, t, s.codec.Total());
    BlocksPrefix(s, t, |s.Blocks()|);
    assert [s.Wire(0, t, t, 0)] <= OfShard(s, t, 0, t);
  }

  /** Nothing of block 0 opens: only its first r shards have been touched, and for attempt t
      all of them are bad. */
  ghost predicate Losing(s: Stream, a: Assembler, r: nat, t: nat) {
    && Inv(s, a) && !a.done && a.nextFlush == 0 && !BlockAt(a, 0).ready
    && (forall i: nat | i in BlockAt(a, 0).received || i in BlockAt(a, 0).subParts :: i < r)
    && (forall i: nat | i < r :: BadShard(s, 0, t, BlockAt(a, 0), i))
  }

  lemma NothingOpens(s: Stream, t: nat, blk: Block, r: nat)
    requires s.Sound() && r <= s.codec.Total() && Collecting(s, 0, blk)
    requires forall i: nat | i in blk.received :: i < r && BadShard(s, 0, t, blk, i)
    ensures |Opened(s.codec, blk)| < s.codec.k
  {
    OpenedOrBad(s, 0, t, blk);
    forall i: nat
      ensures i !in Opened(s.codec, blk)
    {
      assert ShardOk(s, 0, blk, i);
      if i in blk.received { assert i in Bad(s, 0, t, blk); }
    }
    assert Opened(s.codec, blk) == map[];
  }

  ghost predicate LosingBlock(s: Stream, blk: Block, r: nat, t: nat) {
    && (forall i: nat | i in blk.received || i in blk.subParts :: i < r)
    && (forall i: nat | i < r :: BadShard(s, 0, t, blk, i))
  }

  lemma BadFirst(s: Stream, blk: Block, r: nat, t: nat, next: Block)
    requires r <= s.codec.Total() && Bad(s, 0, t, next) == Bad(s, 0, t, blk)
    requires forall i: nat | i < r :: BadShard(s, 0, t, blk, i)
    ensures forall i: nat | i < r :: BadShard(s, 0, t, next, i)
  {
    forall i: nat | i < r
      ensures BadShard(s, 0, t, next, i)
    {
      assert i in Bad(s, 0, t, blk);
      assert i in Bad(s, 0, t, next);
    }
  }

  /** A piece touches its own shard only, and a first piece of several does not complete it. */
  lemma TouchesOwnShard(blk: Block, r: nat, p: Packet)
    requires forall i: nat | i in blk.received || i in blk.subParts :: i < r
    requires p.shard < r || (p.shard == r && p.subTotal > 1 && p.subIndex < p.subTotal)
    ensures forall i: nat | i in Absorbed(blk, p).received :: i < r
    ensures forall i: nat | i in Absorbed(blk, p).subParts :: i < r || i == p.shard
    ensures Absorbed(blk, p).ready == blk.ready
  {
    if p.shard == r { FirstPieceHeld(blk, p); }
  }

  lemma UnsettledBlock(s: Stream, blk: Block, r: nat, t: nat)
    requires s.Sound() && r <= s.codec.Total() && Labelled(s, 0, blk) && Collecting(s, 0, blk) && !blk.ready
    requires forall i: nat | i in blk.received :: i < r
    requires forall i: nat | i < r :: BadShard(s, 0, t, blk, i)
    ensures Settled(s.codec, blk) == blk
  {
    NothingOpens(s, t, blk, r);
    SettledBlock(s, 0, blk);
  }

  /** One more piece of attempt t, for a shard below r or for the untouched shard r. */
  lemma LosingBlockStep(s: Stream, blk: Block, r: nat, t: nat, p: Packet)
    requires s.Sound() && r <= s.codec.Total() && BlockInv(s, 0, blk) && !blk.ready && LosingBlock(s, blk, r, t)
    requires FromAttempt(s, t, p) && p.block == 0 && (p.shard < r || (p.shard == r && p.subTotal > 1))
    ensures Settled(s.codec, Absorbed(blk, p)) == Absorbed(blk, p)
    ensures forall i: nat | i < r :: BadShard(s, 0, t, Absorbed(blk, p), i)
  {
    AbsorbKeeps(s, 0, p.shard, t, p.subIndex, p, blk);
    BadKept(s, 0, p.shard, t, p.subIndex, p, blk);
    BadFirst(s, blk, r, t, Absorbed(blk, p));
    TouchesOwnShard(blk, r, p);
    assert Labelled(s, 0, Absorbed(blk, p));
    UnsettledBlock(s, Absorbed(blk, p), r, t);
  }

  lemma LosingStep(s: Stream, a: Assembler, r: nat, t: nat, p: Packet)
    requires s.Sound() && r <= s.codec.Total() && Losing(s, a, r, t) && FromAttempt(s, t, p) && p.block == 0
    requires p.shard < r || (p.shard == r && p.subTotal > 1)
    ensures var a' := Added(s.codec, a, p);
      && Inv(s, a') && !a'.done && a'.nextFlush == 0
      && BlockAt(a', 0) == Absorbed(BlockFor(a, p), p) && !BlockAt(a', 0).ready
      && (forall i: nat | i < r :: BadShard(s, 0, t, BlockAt(a', 0), i))
  {
    assert s.Genuine(p);
    AddKeeps(s, a, p);
    BlockForInv(s, a, p, t);
    BlankBad(s, a, p, t);
    BadFirst(s, BlockAt(a, 0), r, t, BlockFor(a, p));
    LosingBlockStep(s, BlockFor(a, p), r, t, p);
    TouchesOwnShard(BlockFor(a, p), r, p);
  }

  lemma FirstPieceHeld(blk: Block, p: Packet)
    requires p.shard !in blk.received && p.shard !in blk.subParts && p.subTotal > 1 && p.subIndex < p.subTotal
    ensures Absorbed(blk, p) == blk.(subParts := blk.subParts[p.shard := map[p.subIndex := p.payload]])
  {
    assert WithPiece(blk, p) == map[p.subIndex := p.payload];
  }

  lemma {:induction false} LosingShards(s: Stream, a: Assembler, r: nat, t: nat, ps: seq<Packet>)
    requires s.Sound() && r <= s.codec.Total() && Losing(s, a, r, t)
    requires forall p | p in ps :: FromAttempt(s, t, p) && p.block == 0 && p.shard < r
    ensures Losing(s, AddedAll(s.codec, a, ps), r, t)
  {
    if ps != [] {
      LosingShards(s, a, r, t, ps[..|ps| - 1]);
      LosingStep(s, AddedAll(s.codec, a, ps[..|ps| - 1]), r, t, ps[|ps| - 1]);
      TouchesOwnShard(BlockFor(AddedAll(s.codec, a, ps[..|ps| - 1]), ps[|ps| - 1]), r, ps[|ps| - 1]);
    }
  }

  /** Shards that arrived whole and are bad are held and do not open. */
  lemma WholeBadIsSpoiled(s: Stream, t: nat, a: Assembler, ps: seq<Packet>, i: nat)
    requires s.Sound() && Inv(s, a) && a.nextFlush == 0 && (forall p | p in ps :: FromAttempt(s, t, p))
    requires Whole(s, ps, 0, i)
    requires var a' := AddedAll(s.codec, a, ps);
      a'.nextFlush == 0 && !BlockAt(a', 0).ready && BadShard(s, 0, t, BlockAt(a', 0), i)
    ensures i in Spoiled(s, BlockAt(AddedAll(s.codec, a, ps), 0))
  {
    AlongAll(s, t, a, ps, 0);
    var blk := BlockAt(AddedAll(s.codec, a, ps), 0);
    assert ShardOk(s, 0, blk, i);
    if i in blk.subParts {
      forall j: nat | j < s.Count(0, i)
        ensures j in Held(blk, i)
      {
        assert HasPacket(ps, 0, i, j);
        var p :| p in ps && p.block == 0 && p.shard == i && p.subIndex == j;
        assert In(blk, p.shard, p.subIndex);
      }
      AllHeld(s, 0, i, Held(blk, i));
    }
  }

  /** What the cut piece of shard r adds to the loss. */
  lemma CutPieceLost(s: Stream, blk: Block, r: nat, t: nat, p: Packet)
    requires s.Sound() && s.Count(0, r) > 1 && r < s.codec.Total() && s.IsWire(p, 0, r, r, 0) && t == r + 1
    requires r !in blk.received && r !in blk.subParts
    requires forall i: nat | i < r :: i in Spoiled(s, blk)
    ensures forall i: nat | i < t :: BadShard(s, 0, t, Absorbed(blk, p), i)
  {
    CountFixed(s, 0, r, r);
    FirstPieceHeld(blk, p);
    var next := Absorbed(blk, p);
    forall i: nat | i < t
      ensures BadShard(s, 0, t, next, i)
    {
      if i < r {
        assert i in Spoiled(s, blk);
      } else {
        assert IsPiece(s, 0, r, r, 0, p.payload);
        PiecesDiffer(s, 0, r, r, t, 0, p.payload);
        assert 0 in next.subParts[r] && !IsPiece(s, 0, r, t, 0, next.subParts[r][0]);
      }
    }
  }

  /** Attempt r delivers its first r shards in full: all of them are spoiled. */
  lemma FirstShardsSpoiled(s: Stream, a: Assembler, r: nat)
    requires s.Sound() && r < s.codec.Total() && Losing(s, a, r, r)
    ensures Losing(s, AddedAll(s.codec, a, OfBlock(s, r, 0, r)), r, r)
    ensures forall i: nat | i < r :: i in Spoiled(s, BlockAt(AddedAll(s.codec, a, OfBlock(s, r, 0, r)), 0))
  {
    var ps := OfBlock(s, r, 0, r);
    OfBlockIs(s, r, 0, r);
    LosingShards(s, a, r, r, ps);
    forall i: nat | i < r
      ensures i in Spoiled(s, BlockAt(AddedAll(s.codec, a, ps), 0))
    {
      assert Whole(s, ps, 0, i) && BadShard(s, 0, r, BlockAt(AddedAll(s.codec, a, ps), 0), i);
      WholeBadIsSpoiled(s, r, a, ps, i);
    }
  }

  lemma LosesCutShard(s: Stream, a: Assembler, r: nat, p: Packet)
    requires s.Sound() && r < s.codec.Total() && Losing(s, a, r, r) && s.Count(0, r) > 1 && s.IsWire(p, 0, r, r, 0)
    requires forall i: nat | i < r :: i in Spoiled(s, BlockAt(a, 0))
    ensures Losing(s, Added(s.codec, a, p), r + 1, r + 1)
  {
    CountFixed(s, 0, r, r);
    assert FromAttempt(s, r, p);
    LosingStep(s, a, r, r, p);
    TouchesOwnShard(BlockFor(a, p), r, p);
    assert forall i: nat | i < r :: i in Spoiled(s, BlockFor(a, p)) by {
      if r > 0 { assert 0 in Spoiled(s, BlockAt(a, 0)); }
    }
    CutPieceLost(s, BlockFor(a, p), r, r + 1, p);
  }

  lemma LosesOneMore(s: Stream, a: Assembler, r: nat)
    requires s.Sound() && r < s.codec.Total() && Losing(s, a, r, r) && s.Count(0, r) > 1
    ensures Losing(s, AddedAll(s.codec, a, CutShort(s, r)), r + 1, r + 1)
  {
    var ps, p := OfBlock(s, r, 0, r), s.Wire(0, r, r, 0);
    FirstShardsSpoiled(s, a, r);
    assert CutShort(s, r)[..|ps|] == ps && CutShort(s, r)[|ps|] == p;
    LosesCutShard(s, AddedAll(s.codec, a, ps), r, p);
  }

  function Cuts(s: Stream, n: nat): seq<seq<Packet>> { if n == 0 then [] else Cuts(s, n - 1) + [CutShort(s, n - 1)] }

  lemma AfterOneMore(s: Stream, r: nat)
    ensures After(s, Cuts(s, r + 1)) == AddedAll(s.codec, After(s, Cuts(s, r)), CutShort(s, r))
  {
    assert Cuts(s, r + 1)[..|Cuts(s, r + 1)| - 1] == Cuts(s, r);
  }

  lemma StartLosing(s: Stream)
    ensures Losing(s, Empty(), 0, 0)
  {
    EmptyInv(s);
  }

  /** The first n shards of the first block travel in several pieces. */
  ghost predicate SplitShards(s: Stream, n: nat) { forall i: nat | i < n :: s.Count(0, i) > 1 }

  lemma CutsLoseStep(s: Stream, q: nat, r: nat)
    requires s.Sound() && SplitShards(s, s.codec.m + 1) && q <= s.codec.m && Losing(s, After(s, Cuts(s, q)), q, q)
    requires r == q + 1
    ensures Losing(s, After(s, Cuts(s, r)), r, r)
  {
    LosesOneMore(s, After(s, Cuts(s, q)), q);
    AfterOneMore(s, q);
  }

  lemma {:induction false} CutsLose(s: Stream, r: nat)
    requires s.Sound() && SplitShards(s, s.codec.m + 1) && r <= s.codec.m + 1
    ensures Losing(s, After(s, Cuts(s, r)), r, r)
    ensures |Cuts(s, r)| == r && AllInterrupted(s, Cuts(s, r))
  {
    if r == 0 {
      StartLosing(s);
    } else {
      CutsLose(s, r - 1);
      CutsLoseStep(s, r - 1, r);
      OneMoreInterrupted(s, Cuts(s, r - 1), r - 1);
    }
  }

  lemma OneMoreInterrupted(s: Stream, attempts: seq<seq<Packet>>, r: nat)
    requires |attempts| == r < s.codec.Total() && AllInterrupted(s, attempts) && After(s, attempts).nextFlush == 0
    ensures AllInterrupted(s, attempts + [CutShort(s, r)])
  {
    var next := attempts + [CutShort(s, r)];
    CutShortIsPrefix(s, r);
    forall t: nat | t < |next|
      ensures Interrupted(s, next, t)
    {
      assert next[..t] == attempts[..t] && attempts[..r] == attempts;
      if t < r { assert Interrupted(s, attempts, t); }
    }
  }

  /** The bound is exact: for every stream whose first block has m + 1 shards that travel in
      several pieces, there are r = m + 1 interruptions after which no attempt that gets through
      completes the stream, and nothing sent after it ever does. */
  lemma {:induction false} OneInterruptionTooMany(s: Stream, r: nat, last: seq<Packet>, later: seq<Packet>)
    requires s.Sound() && r == s.codec.m + 1 && SplitShards(s, r)
    requires last == Sending(s, r, After(s, Cuts(s, r)).nextFlush)
    requires forall p | p in later :: s.Genuine(p)
    ensures |Cuts(s, r)| == r && AllInterrupted(s, Cuts(s, r))
    ensures !AddedAll(s.codec, AddedAll(s.codec, After(s, Cuts(s, r)), last), later).done
  {
    CutsLose(s, r);
    SendingInOrder(s, r, 0);
    var a := After(s, Cuts(s, r));
    var lost := Below(r);
    SubsetCard(lost, Bad(s, 0, r, BlockAt(a, 0)));
    ResumeCompletesIff(s, r, a, last);
    AlongAll(s, r, a, last, 0);
    var a' := AddedAll(s.codec, a, last);
    forall i: nat | i in lost
      ensures i in Spoiled(s, BlockAt(a', 0))
    {
      assert i in Bad(s, 0, r, BlockAt(a', 0)) && Whole(s, last, 0, i);
      WholeBadIsSpoiled(s, r, a, last, i);
    }
    SubsetCard(lost, Spoiled(s, BlockAt(a', 0)));
    SpoiledForever(s, a', 0, later);
  }
}
