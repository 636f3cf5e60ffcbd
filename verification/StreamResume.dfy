/** Resuming an interrupted stream. A new attempt seals every shard afresh, while the receiver
    keeps the pieces of shards it holds in part and never replaces them
    (internal/transfer/transfer.go:1956-1987). A shard whose pieces come from two attempts does
    not open and stays marked as received, so it is lost for good. A resumed stream therefore
    completes if and only if no block has lost more shards than it has parity. */
module StreamResume {
  import opened Basics
  import opened StreamModel
  import opened StreamSafety

  // ---- which shards a further attempt cannot use ------------------------------------------

  /** Some held piece does not belong to attempt t. */
  ghost predicate Foreign(s: Stream, b: nat, i: nat, t: nat, parts: map<nat, Bytes>)
    requires b < |s.Blocks()|
  {
    exists j :: j in parts && !IsPiece(s, b, i, t, j, parts[j])
  }

  /** Shard i is held and does not open, or is held in part from another attempt than t. */
  ghost predicate BadShard(s: Stream, b: nat, t: nat, blk: Block, i: nat)
    requires b < |s.Blocks()|
  {
    || (i in blk.chunks && s.codec.open(blk.chunks[i], i) == None)
    || (i in blk.subParts && Foreign(s, b, i, t, blk.subParts[i]))
  }

  ghost function Bad(s: Stream, b: nat, t: nat, blk: Block): set<nat>
    requires b < |s.Blocks()|
  {
    set i: nat | i < s.codec.Total() && BadShard(s, b, t, blk, i)
  }

  /** The block as far as the assembler holds it. */
  function BlockAt(a: Assembler, b: nat): Block {
    if b in a.blocks then a.blocks[b] else Block(0, 0, false, {}, map[], map[], [], false)
  }

  ghost function BadAt(s: Stream, a: Assembler, b: nat, t: nat): set<nat>
    requires b < |s.Blocks()|
  {
    if BlockAt(a, b).ready then {} else Bad(s, b, t, BlockAt(a, b))
  }

  // ---- a piece of attempt t neither spoils nor repairs a shard ------------------------------

  lemma SameMix(s: Stream, b: nat, i: nat, parts: map<nat, Bytes>, ts: seq<nat>)
    requires b < |s.Blocks()| && forall j: nat | j < |ts| :: j in parts && IsPiece(s, b, i, ts[j], j, parts[j])
    ensures Concat(Ordered(parts, |ts|)) == MixOf(s, b, i, ts)
  {
    var mixed := s.codec.Mixed(s.Shard(b, i), i, ts);
    forall j | 0 <= j < |ts|
      ensures mixed[j] == Ordered(parts, |ts|)[j]
    {
      assert IsPiece(s, b, i, ts[j], j, parts[j]);
    }
    assert mixed == Ordered(parts, |ts|);
  }

  lemma ForeignDoesNotOpen(s: Stream, b: nat, i: nat, t: nat, parts: map<nat, Bytes>, ts: seq<nat>, j: nat)
    requires s.Sound() && b < |s.Blocks()| && |ts| == s.Count(b, i)
    requires forall l: nat | l < |ts| :: l in parts && IsPiece(s, b, i, ts[l], l, parts[l])
    requires j < |ts| && IsPiece(s, b, i, t, j, parts[j])
    requires exists l: nat :: l < |ts| && !IsPiece(s, b, i, t, l, parts[l])
    ensures s.codec.open(Concat(Ordered(parts, |ts|)), i) == None
  {
    var l: nat :| l < |ts| && !IsPiece(s, b, i, t, l, parts[l]);
    var swapped := ts[j := t];
    assert swapped[l] != swapped[j];
    SameMix(s, b, i, parts, swapped);
    MixOpens(s, b, i, swapped);
  }

  /** A completed shard one of whose pieces is from attempt t opens exactly when all are. */
  lemma CompletedOpens(s: Stream, b: nat, i: nat, t: nat, parts: map<nat, Bytes>, j: nat)
    requires s.Sound() && b < |s.Blocks()| && |parts| == s.Count(b, i) > 1
    requires forall l | l in parts :: l < s.Count(b, i) && HasSource(s, b, i, l, parts[l])
    requires j in parts && IsPiece(s, b, i, t, j, parts[j])
    ensures s.codec.open(Concat(Ordered(parts, s.Count(b, i))), i) == None <==> Foreign(s, b, i, t, parts)
  {
    var ts := CompletedIsMix(s, b, i, parts);
    if Foreign(s, b, i, t, parts) {
      ForeignDoesNotOpen(s, b, i, t, parts, ts, j);
    } else {
      var ours := seq(s.Count(b, i), _ => t);
      SameMix(s, b, i, parts, ours);
      MixOpens(s, b, i, ours);
    }
  }

  lemma BadWholeKept(s: Stream, b: nat, i: nat, t: nat, p: Packet, blk: Block)
    requires s.Sound() && s.IsWire(p, b, i, t, 0) && ShardOk(s, b, blk, i) && i !in blk.received && s.Count(b, i) == 1
    ensures !BadShard(s, b, t, Absorbed(blk, p), i) && !BadShard(s, b, t, blk, i)
  {
    WholeIsMix(s, b, i, t);
    assert i !in blk.subParts;
  }

  /** Shard p.shard is bad once p has joined it exactly when the pieces then held do not all
      belong to attempt t, or the completed shard does not open. */
  lemma BadOnceJoined(s: Stream, b: nat, t: nat, p: Packet, blk: Block)
    requires b < |s.Blocks()| && p.subTotal > 1 && p.subIndex < p.subTotal
    requires p.shard !in blk.received && p.shard !in blk.chunks
    ensures BadShard(s, b, t, Absorbed(blk, p), p.shard) <==>
      if |WithPiece(blk, p)| < p.subTotal then Foreign(s, b, p.shard, t, WithPiece(blk, p))
      else s.codec.open(Concat(Ordered(WithPiece(blk, p), p.subTotal)), p.shard) == None
  {
  }

  lemma BadSplitKept(s: Stream, b: nat, i: nat, t: nat, j: nat, p: Packet, blk: Block)
    requires s.Sound() && s.IsWire(p, b, i, t, j) && ShardOk(s, b, blk, i) && i !in blk.received
    requires |s.Pieces(b, i, t)| == s.Count(b, i) > 1
    ensures BadShard(s, b, t, Absorbed(blk, p), i) <==> Foreign(s, b, i, t, Held(blk, i))
  {
    assert IsPiece(s, b, i, t, j, p.payload);
    PieceJoins(s, b, i, t, j, p, blk);
    var held, parts := Held(blk, i), WithPiece(blk, p);
    ForeignKept(s, b, i, t, held, j, p.payload, parts);
    BadOnceJoined(s, b, t, p, blk);
    if |parts| == p.subTotal {
      assert j !in held;
      CompletedOpens(s, b, i, t, parts, j);
    }
  }

  lemma BadShardKept(s: Stream, b: nat, i: nat, t: nat, j: nat, p: Packet, blk: Block)
    requires s.Sound() && s.IsWire(p, b, i, t, j) && ShardOk(s, b, blk, i) && i !in blk.received
    ensures BadShard(s, b, t, Absorbed(blk, p), i) <==> BadShard(s, b, t, blk, i)
  {
    CountFixed(s, b, i, t);
    if s.Count(b, i) == 1 { BadWholeKept(s, b, i, t, p, blk); } else { BadSplitKept(s, b, i, t, j, p, blk); }
  }

  lemma ForeignKept(s: Stream, b: nat, i: nat, t: nat, held: map<nat, Bytes>, j: nat, v: Bytes, parts: map<nat, Bytes>)
    requires b < |s.Blocks()| && IsPiece(s, b, i, t, j, v) && parts == if j in held then held else held[j := v]
    ensures Foreign(s, b, i, t, parts) <==> Foreign(s, b, i, t, held)
  {
    if Foreign(s, b, i, t, parts) {
      var l :| l in parts && !IsPiece(s, b, i, t, l, parts[l]);
      assert l in held && held[l] == parts[l];
    }
    if Foreign(s, b, i, t, held) {
      var l :| l in held && !IsPiece(s, b, i, t, l, held[l]);
      assert l in parts && parts[l] == held[l];
    }
  }

  lemma BadKept(s: Stream, b: nat, i: nat, t: nat, j: nat, p: Packet, blk: Block)
    requires s.Sound() && s.IsWire(p, b, i, t, j) && Collecting(s, b, blk)
    ensures Bad(s, b, t, Absorbed(blk, p)) == Bad(s, b, t, blk)
  {
    forall x: nat
      ensures BadShard(s, b, t, Absorbed(blk, p), x) <==> BadShard(s, b, t, blk, x)
    {
      if x == i && i !in blk.received {
        assert ShardOk(s, b, blk, i);
        BadShardKept(s, b, i, t, j, p, blk);
      } else {
        SameShardBad(s, b, t, blk, Absorbed(blk, p), x);
      }
    }
  }

  lemma SameShardBad(s: Stream, b: nat, t: nat, blk: Block, next: Block, x: nat)
    requires b < |s.Blocks()| && (x in blk.chunks <==> x in next.chunks) && (x in blk.subParts <==> x in next.subParts)
    requires x in blk.chunks ==> blk.chunks[x] == next.chunks[x]
    requires x in blk.subParts ==> blk.subParts[x] == next.subParts[x]
    ensures BadShard(s, b, t, next, x) <==> BadShard(s, b, t, blk, x)
  {
  }

  // ---- progress ----------------------------------------------------------------------------------

  /** Piece j of shard i is in: held in part or as a whole shard. */
  predicate In(blk: Block, i: nat, j: nat) { i in blk.received || j in Held(blk, i) }

  lemma AbsorbedIn(s: Stream, b: nat, t: nat, p: Packet, blk: Block)
    requires s.IsWire(p, b, p.shard, t, p.subIndex)
    ensures In(Absorbed(blk, p), p.shard, p.subIndex)
    ensures forall i: nat, j: nat :: In(blk, i, j) ==> In(Absorbed(blk, p), i, j)
  {
  }

  lemma OpenedOrBad(s: Stream, b: nat, t: nat, blk: Block)
    requires b < |s.Blocks()| && Collecting(s, b, blk)
    ensures Opened(s.codec, blk).Keys !! Bad(s, b, t, blk)
    ensures forall i: nat :: i in blk.received && i !in Bad(s, b, t, blk) ==> i in Opened(s.codec, blk)
  {
    forall i: nat
      ensures !(i in Opened(s.codec, blk) && i in Bad(s, b, t, blk))
      ensures i in blk.received && i !in Bad(s, b, t, blk) ==> i in Opened(s.codec, blk)
    {
      assert ShardOk(s, b, blk, i);
    }
  }

  lemma {:induction false} Below(n: nat) returns (all: set<nat>)
    ensures |all| == n && forall i: nat :: i in all <==> i < n
  {
    if n == 0 { return {}; }
    all := Below(n - 1);
    all := all + {n - 1};
  }

  /** A block that has lost more shards than it has parity cannot be rebuilt. */
  lemma TooManyBad(s: Stream, b: nat, t: nat, blk: Block)
    requires b < |s.Blocks()| && Collecting(s, b, blk) && |Bad(s, b, t, blk)| > s.codec.m
    ensures |Opened(s.codec, blk)| < s.codec.k
  {
    OpenedOrBad(s, b, t, blk);
    var all := Below(s.codec.Total());
    SubsetCard(Opened(s.codec, blk).Keys + Bad(s, b, t, blk), all);
  }

  /** Every shard of a set whose pieces are all in, and that is not bad, opens. */
  lemma CoveredOpen(s: Stream, b: nat, t: nat, blk: Block, g: set<nat>)
    requires b < |s.Blocks()| && Collecting(s, b, blk)
    requires forall i: nat, j: nat :: i in g && j < s.Count(b, i) ==> In(blk, i, j)
    ensures |g - Bad(s, b, t, blk)| <= |Opened(s.codec, blk)|
  {
    OpenedOrBad(s, b, t, blk);
    forall i: nat | i in g
      ensures i in blk.received
    {
      assert ShardOk(s, b, blk, i);
      if i !in blk.received {
        forall j: nat | j < s.Count(b, i)
          ensures j in Held(blk, i)
        {
          assert In(blk, i, j);
        }
        assert 0 in Held(blk, i);
        assert Partial(s, b, i, Held(blk, i));
        AllHeld(s, b, i, Held(blk, i));
      }
    }
    SubsetCard(g - Bad(s, b, t, blk), Opened(s.codec, blk).Keys);
  }

  /** A map that holds every piece is not partial. */
  lemma AllHeld(s: Stream, b: nat, i: nat, parts: map<nat, Bytes>)
    requires b < |s.Blocks()| && forall j: nat :: j < s.Count(b, i) ==> j in parts
    ensures !Partial(s, b, i, parts)
  {
    var all := Below(s.Count(b, i));
    SubsetCard(all, parts.Keys);
  }

  // ---- following one attempt ---------------------------------------------------------------------

  ghost predicate FromAttempt(s: Stream, t: nat, p: Packet) { s.IsWire(p, p.block, p.shard, t, p.subIndex) }

  /** Block b of assembler a' after the arrivals ps, all from attempt t, that a has seen. */
  ghost predicate Along(s: Stream, t: nat, a: Assembler, ps: seq<Packet>, a': Assembler, b: nat)
    requires b < |s.Blocks()|
  {
    if b < a'.nextFlush || BlockAt(a', b).ready then |BadAt(s, a, b, t)| <= s.codec.m
    else
      && Bad(s, b, t, BlockAt(a', b)) == BadAt(s, a, b, t)
      && forall p | p in ps && p.block == b :: In(BlockAt(a', b), p.shard, p.subIndex)
  }

  lemma {:induction false} FlushedWereReady(a: Assembler)
    ensures a.nextFlush <= Flushed(a).nextFlush
    ensures forall b: nat | a.nextFlush <= b < Flushed(a).nextFlush :: b in a.blocks && a.blocks[b].ready
    ensures forall b: nat | b >= Flushed(a).nextFlush :: BlockAt(Flushed(a), b) == BlockAt(a, b)
    decreases |a.blocks|
  {
    if a.nextFlush in a.blocks && a.blocks[a.nextFlush].ready {
      var b := a.blocks[a.nextFlush];
      Shrinks(a.blocks, a.nextFlush);
      var a' := a.(sink := a.sink + b.data, blocks := a.blocks - {a.nextFlush}, nextFlush := a.nextFlush + 1);
      if !b.final { FlushedWereReady(a'); }
      forall x: nat | a.nextFlush <= x < Flushed(a).nextFlush
        ensures x in a.blocks && a.blocks[x].ready
      {
        assert x == a.nextFlush || (x in a'.blocks && a'.blocks[x].ready);
      }
    }
  }

  /** The block of p once p has arrived. */
  lemma NextBad(s: Stream, t: nat, p: Packet, blk: Block)
    requires s.Sound() && FromAttempt(s, t, p) && !blk.ready && BlockInv(s, p.block, blk)
    ensures var next := Settled(s.codec, Absorbed(blk, p));
      && (next.ready ==> |Bad(s, p.block, t, blk)| <= s.codec.m)
      && (!next.ready ==> next == Absorbed(blk, p) && Bad(s, p.block, t, next) == Bad(s, p.block, t, blk))
  {
    var b := p.block;
    AbsorbKeeps(s, b, p.shard, t, p.subIndex, p, blk);
    BadKept(s, b, p.shard, t, p.subIndex, p, blk);
    SettledBlock(s, b, Absorbed(blk, p));
    if |Bad(s, b, t, blk)| > s.codec.m { TooManyBad(s, b, t, Absorbed(blk, p)); }
  }

  lemma NextIn(s: Stream, t: nat, ps: seq<Packet>, p: Packet, blk: Block)
    requires FromAttempt(s, t, p) && forall q | q in ps && q.block == p.block :: In(blk, q.shard, q.subIndex)
    ensures forall q | q in ps + [p] && q.block == p.block :: In(Absorbed(blk, p), q.shard, q.subIndex)
  {
    AbsorbedIn(s, p.block, t, p, blk);
    forall q | q in ps + [p] && q.block == p.block
      ensures In(Absorbed(blk, p), q.shard, q.subIndex)
    {
      if q in ps { assert In(blk, q.shard, q.subIndex); }
    }
  }

  lemma AlongBlock(s: Stream, t: nat, a: Assembler, ps: seq<Packet>, a': Assembler, p: Packet)
    requires s.Sound() && Inv(s, a') && FromAttempt(s, t, p) && !BlockAt(a', p.block).ready && p.block >= a'.nextFlush
    requires Along(s, t, a, ps, a', p.block)
    ensures var blk := Settled(s.codec, Absorbed(BlockFor(a', p), p));
      && (blk.ready ==> |BadAt(s, a, p.block, t)| <= s.codec.m)
      && (!blk.ready ==> Bad(s, p.block, t, blk) == BadAt(s, a, p.block, t))
      && (!blk.ready ==> forall q | q in ps + [p] && q.block == p.block :: In(blk, q.shard, q.subIndex))
  {
    BlockForInv(s, a', p, t);
    BlankBad(s, a', p, t);
    NextBad(s, t, p, BlockFor(a', p));
    assert forall i: nat, j: nat :: In(BlockAt(a', p.block), i, j) <==> In(BlockFor(a', p), i, j);
    NextIn(s, t, ps, p, BlockFor(a', p));
  }

  lemma BlankBad(s: Stream, a: Assembler, p: Packet, t: nat)
    requires FromAttempt(s, t, p)
    ensures Bad(s, p.block, t, BlockFor(a, p)) == Bad(s, p.block, t, BlockAt(a, p.block))
  {
  }

  lemma AlongStep(s: Stream, t: nat, a: Assembler, ps: seq<Packet>, a': Assembler, p: Packet, b: nat)
    requires s.Sound() && Inv(s, a') && FromAttempt(s, t, p) && b < |s.Blocks()|
    requires Along(s, t, a, ps, a', b)
    ensures Along(s, t, a, ps + [p], Added(s.codec, a', p), b)
  {
    if a'.done || BlockFor(a', p).ready {
      assert a'.done ==> b < a'.nextFlush;
    } else {
      var blk := Settled(s.codec, Absorbed(BlockFor(a', p), p));
      var mid := a'.(blocks := a'.blocks[p.block := blk]);
      if b == p.block && b >= a'.nextFlush { AlongBlock(s, t, a, ps, a', p); }
      FlushedWereReady(mid);
      assert b != p.block ==> BlockAt(mid, b) == BlockAt(a', b);
      assert b == p.block ==> BlockAt(mid, b) == blk;
    }
  }

  lemma {:induction false} AlongAll(s: Stream, t: nat, a: Assembler, ps: seq<Packet>, b: nat)
    requires s.Sound() && Inv(s, a) && (forall p | p in ps :: FromAttempt(s, t, p)) && a.nextFlush <= b < |s.Blocks()|
    ensures Inv(s, AddedAll(s.codec, a, ps)) && Along(s, t, a, ps, AddedAll(s.codec, a, ps), b)
  {
    if ps != [] {
      var front, p := ps[..|ps| - 1], ps[|ps| - 1];
      AlongAll(s, t, a, front, b);
      assert FromAttempt(s, t, p);
      assert s.Genuine(p);
      AddKeeps(s, AddedAll(s.codec, a, front), p);
      AlongStep(s, t, a, front, AddedAll(s.codec, a, front), p, b);
      assert front + [p] == ps;
    }
  }

  // ---- the theorems --------------------------------------------------------------------------------

  predicate HasPacket(ps: seq<Packet>, b: nat, i: nat, j: nat) {
    exists p :: p in ps && p.block == b && p.shard == i && p.subIndex == j
  }

  /** Every piece of shard i of block b is among the arrivals. */
  ghost predicate Whole(s: Stream, ps: seq<Packet>, b: nat, i: nat)
    requires b < |s.Blocks()|
  {
    forall j: nat | j < s.Count(b, i) :: HasPacket(ps, b, i, j)
  }

  /** Whole shards arrive for a set g of a block's shards: if the block is still incomplete,
      fewer than k of them were usable. */
  lemma StillIncomplete(s: Stream, t: nat, a: Assembler, ps: seq<Packet>, b: nat, g: set<nat>)
    requires s.Sound() && Inv(s, a) && (forall p | p in ps :: FromAttempt(s, t, p)) && a.nextFlush <= b < |s.Blocks()|
    requires forall i: nat | i in g :: Whole(s, ps, b, i)
    ensures var a' := AddedAll(s.codec, a, ps);
      b >= a'.nextFlush && !BlockAt(a', b).ready ==> |g - BadAt(s, a, b, t)| < s.codec.k
  {
    AlongAll(s, t, a, ps, b);
    var a' := AddedAll(s.codec, a, ps);
    var blk := BlockAt(a', b);
    if b >= a'.nextFlush && !blk.ready {
      forall i: nat, j: nat | i in g && j < s.Count(b, i)
        ensures In(blk, i, j)
      {
        assert Whole(s, ps, b, i) && HasPacket(ps, b, i, j);
      }
      if b !in a'.blocks { BlankCollecting(s, b, blk); }
      CoveredOpen(s, b, t, blk, g);
    }
  }

  lemma BlankCollecting(s: Stream, b: nat, blk: Block)
    requires b < |s.Blocks()| && s.codec.k > 0 && blk == Block(0, 0, false, {}, map[], map[], [], false)
    ensures Collecting(s, b, blk) && |Opened(s.codec, blk)| < s.codec.k
  {
    assert forall i: nat :: ShardOk(s, b, blk, i);
    assert Opened(s.codec, blk) == map[];
  }

  /** If, for every block not yet written, k usable shards of one attempt arrive whole, in
      whatever order and with whatever else of that attempt, the stream completes: the sink
      holds the whole payload and has been closed once. */
  lemma {:induction false} EnoughShardsComplete(s: Stream, t: nat, a: Assembler, ps: seq<Packet>, g: nat -> set<nat>)
    requires s.Sound() && Inv(s, a) && (forall p | p in ps :: FromAttempt(s, t, p))
    requires forall b: nat | a.nextFlush <= b < |s.Blocks()| ::
               |g(b) - BadAt(s, a, b, t)| >= s.codec.k && forall i: nat | i in g(b) :: Whole(s, ps, b, i)
    ensures var a' := AddedAll(s.codec, a, ps); a'.done && a'.sink == s.data && a'.closes == 1
  {
    var a' := AddedAll(s.codec, a, ps);
    if a.nextFlush < |s.Blocks()| {
      AlongAll(s, t, a, ps, a.nextFlush);
      NextFlushGrows(s, t, a, ps);
      if !a'.done {
        var b := a'.nextFlush;
        assert a.nextFlush <= b < |s.Blocks()|;
        StillIncomplete(s, t, a, ps, b, g(b));
      }
    } else {
      DoneStays(s, a, ps);
    }
    assert s.Blocks()[..|s.Blocks()|] == s.Blocks();
    CutJoins(s.data, s.size);
  }

  lemma {:induction false} DoneStays(s: Stream, a: Assembler, ps: seq<Packet>)
    requires a.done
    ensures AddedAll(s.codec, a, ps) == a
  {
    if ps != [] { DoneStays(s, a, ps[..|ps| - 1]); }
  }

  lemma {:induction false} NextFlushGrows(s: Stream, t: nat, a: Assembler, ps: seq<Packet>)
    requires s.Sound() && Inv(s, a) && (forall p | p in ps :: FromAttempt(s, t, p))
    ensures a.nextFlush <= AddedAll(s.codec, a, ps).nextFlush && Inv(s, AddedAll(s.codec, a, ps))
  {
    if ps != [] {
      NextFlushGrows(s, t, a, ps[..|ps| - 1]);
      assert FromAttempt(s, t, ps[|ps| - 1]);
      assert s.Genuine(ps[|ps| - 1]);
      AddKeeps(s, AddedAll(s.codec, a, ps[..|ps| - 1]), ps[|ps| - 1]);
    }
  }

  /** A receiver that holds nothing yet completes from any k whole shards of every block. */
  lemma {:induction false} FirstAttemptCompletes(s: Stream, t: nat, ps: seq<Packet>, g: nat -> set<nat>)
    requires s.Sound() && (forall p | p in ps :: FromAttempt(s, t, p))
    requires forall b: nat | b < |s.Blocks()| :: |g(b)| >= s.codec.k && forall i: nat | i in g(b) :: Whole(s, ps, b, i)
    ensures var a := AddedAll(s.codec, Empty(), ps); a.done && a.sink == s.data && a.closes == 1
  {
    EmptyInv(s);
    forall b: nat | b < |s.Blocks()|
      ensures g(b) - BadAt(s, Empty(), b, t) == g(b)
    {
    }
    EnoughShardsComplete(s, t, Empty(), ps, g);
  }

  /** A whole further attempt, started at the block the receiver asks for, arrives. The stream
      then completes if and only if no remaining block has more bad shards than parity. */
  lemma {:induction false} ResumeCompletesIff(s: Stream, t: nat, a: Assembler, ps: seq<Packet>)
    requires s.Sound() && Inv(s, a) && (forall p | p in ps :: FromAttempt(s, t, p))
    requires forall b: nat, i: nat | a.nextFlush <= b < |s.Blocks()| && i < s.codec.Total() :: Whole(s, ps, b, i)
    ensures var a' := AddedAll(s.codec, a, ps);
      && (a'.done <==> forall b: nat | a.nextFlush <= b < |s.Blocks()| :: |BadAt(s, a, b, t)| <= s.codec.m)
      && (a'.done ==> a'.sink == s.data && a'.closes == 1)
  {
    var a' := AddedAll(s.codec, a, ps);
    NextFlushGrows(s, t, a, ps);
    if a'.done {
      forall b: nat | a.nextFlush <= b < |s.Blocks()|
        ensures |BadAt(s, a, b, t)| <= s.codec.m
      {
        AlongAll(s, t, a, ps, b);
      }
      assert s.Blocks()[..|s.Blocks()|] == s.Blocks();
      CutJoins(s.data, s.size);
    }
    if forall b: nat | a.nextFlush <= b < |s.Blocks()| :: |BadAt(s, a, b, t)| <= s.codec.m {
      var all := Below(s.codec.Total());
      var g := (_: nat) => all;
      forall b: nat | a.nextFlush <= b < |s.Blocks()|
        ensures |g(b) - BadAt(s, a, b, t)| >= s.codec.k
      {
        var bad := BadAt(s, a, b, t);
        assert bad <= all;
        assert |all - bad| == |all| - |bad|;
      }
      EnoughShardsComplete(s, t, a, ps, g);
    }
  }
}
