/** Prefix safety: whatever pieces arrive, from however many sending attempts, in any order and
    with any loss and duplication, the sink holds exactly the blocks below nextFlush. */
module StreamSafety {
  import opened Basics
  import opened StreamModel

  // ---- pieces from several attempts ---------------------------------------------------------

  /** The bytes obtained by taking piece j of shard i from attempt ts[j]. */
  function MixOf(s: Stream, b: nat, i: nat, ts: seq<nat>): Bytes
    requires b < |s.Blocks()|
  {
    Concat(s.codec.Mixed(s.Shard(b, i), i, ts))
  }

  /** A shard put together from one attempt opens to the shard; a mixture does not open. */
  lemma {:induction false} MixOpens(s: Stream, b: nat, i: nat, ts: seq<nat>)
    requires s.Sound() && b < |s.Blocks()| && |ts| == s.Count(b, i)
    ensures s.codec.open(MixOf(s, b, i, ts), i) == if OneAttempt(ts) then Some(s.Shard(b, i)) else None
  {
    CountFixed(s, b, i, ts[0]);
    if OneAttempt(ts) {
      UnmixedOpens(s.codec, s.Shard(b, i), i, ts);
    } else {
      assert s.codec.open(Concat(s.codec.Mixed(s.Shard(b, i), i, ts)), i) == None;
    }
  }

  ghost predicate IsMix(s: Stream, b: nat, i: nat, c: Bytes)
    requires b < |s.Blocks()|
  {
    exists ts: seq<nat> :: |ts| == s.Count(b, i) && c == MixOf(s, b, i, ts)
  }

  ghost predicate IsPiece(s: Stream, b: nat, i: nat, t: nat, j: nat, v: Bytes)
    requires b < |s.Blocks()|
  {
    j < |s.Pieces(b, i, t)| && v == s.Pieces(b, i, t)[j]
  }

  /** v is piece j of shard i as some attempt sealed it. */
  ghost predicate HasSource(s: Stream, b: nat, i: nat, j: nat, v: Bytes)
    requires b < |s.Blocks()|
  {
    exists t: nat :: IsPiece(s, b, i, t, j, v)
  }

  /** Some, but not all, pieces of shard i are held. */
  ghost predicate Partial(s: Stream, b: nat, i: nat, parts: map<nat, Bytes>)
    requires b < |s.Blocks()|
  {
    && 0 < |parts| < s.Count(b, i)
    && forall j | j in parts :: j < s.Count(b, i) && HasSource(s, b, i, j, parts[j])
  }

  lemma {:induction false} FullKeys<V>(m: map<nat, V>, n: nat)
    requires |m| == n && forall j | j in m :: j < n
    ensures forall j: nat :: j < n ==> j in m
  {
    if n > 0 {
      if n - 1 in m {
        var rest := m - {n - 1};
        assert rest.Keys == m.Keys - {n - 1};
        assert |rest.Keys| == |m.Keys| - 1;
        FullKeys(rest, n - 1);
      } else {
        TooMany(m, n - 1);
      }
    }
  }

  lemma {:induction false} TooMany<V>(m: map<nat, V>, n: nat)
    requires forall j | j in m :: j < n
    ensures |m| <= n
  {
    if m != map[] && n > 0 {
      var rest := m - {n - 1};
      assert rest.Keys == m.Keys - {n - 1};
      assert |m.Keys| <= |rest.Keys| + 1;
      TooMany(rest, n - 1);
    }
  }

  /** All pieces of a shard, wherever each came from, concatenate to a mixture. */
  lemma CompletedIsMix(s: Stream, b: nat, i: nat, parts: map<nat, Bytes>) returns (ts: seq<nat>)
    requires s.Sound() && b < |s.Blocks()| && |parts| == s.Count(b, i)
    requires forall j | j in parts :: j < s.Count(b, i) && HasSource(s, b, i, j, parts[j])
    ensures |ts| == s.Count(b, i) && Concat(Ordered(parts, s.Count(b, i))) == MixOf(s, b, i, ts)
    ensures forall j: nat | j < |ts| :: j in parts && IsPiece(s, b, i, ts[j], j, parts[j])
  {
    FullKeys(parts, s.Count(b, i));
    ts := Sources(s, b, i, parts, s.Count(b, i));
    var mixed := s.codec.Mixed(s.Shard(b, i), i, ts);
    forall j | 0 <= j < |ts|
      ensures mixed[j] == Ordered(parts, |ts|)[j]
    {
      assert IsPiece(s, b, i, ts[j], j, parts[j]);
    }
    assert mixed == Ordered(parts, |ts|);
  }

  lemma {:induction false} Sources(s: Stream, b: nat, i: nat, parts: map<nat, Bytes>, n: nat) returns (ts: seq<nat>)
    requires b < |s.Blocks()|
    requires forall j: nat | j < n :: j in parts && HasSource(s, b, i, j, parts[j])
    ensures |ts| == n && forall j: nat | j < n :: IsPiece(s, b, i, ts[j], j, parts[j])
  {
    if n == 0 { return []; }
    ts := Sources(s, b, i, parts, n - 1);
    var t: nat :| IsPiece(s, b, i, t, n - 1, parts[n - 1]);
    ts := ts + [t];
  }

  // ---- the invariant ------------------------------------------------------------------------

  /** Shard i of a block still being collected: whole, in part, or not yet seen. */
  ghost predicate ShardOk(s: Stream, b: nat, blk: Block, i: nat)
    requires b < |s.Blocks()|
  {
    && (i in blk.received <==> i in blk.chunks)
    && (i in blk.chunks ==> i < s.codec.Total() && i !in blk.subParts && IsMix(s, b, i, blk.chunks[i]))
    && (i in blk.subParts ==> i < s.codec.Total() && Partial(s, b, i, blk.subParts[i]))
  }

  ghost predicate Collecting(s: Stream, b: nat, blk: Block)
    requires b < |s.Blocks()|
  {
    forall i: nat :: ShardOk(s, b, blk, i)
  }

  ghost predicate BlockInv(s: Stream, b: nat, blk: Block) {
    && b < |s.Blocks()|
    && blk.total == s.codec.Total() && blk.blockLen == |s.Blocks()[b]| && blk.final == (b == |s.Blocks()| - 1)
    && (blk.ready ==> blk.data == s.Blocks()[b])
    && (!blk.ready ==> Collecting(s, b, blk) && |Opened(s.codec, blk)| < s.codec.k)
  }

  ghost predicate Prefix(s: Stream, a: Assembler) {
    Written(s, a) && forall b | b in a.blocks :: BlockInv(s, b, a.blocks[b])
  }

  /** Nothing that could be written is held back. */
  ghost predicate Drained(a: Assembler) { !a.done && a.nextFlush in a.blocks ==> !a.blocks[a.nextFlush].ready }

  ghost predicate Inv(s: Stream, a: Assembler) { Prefix(s, a) && Drained(a) }

  /** The pieces of a shard once p has joined them. */
  lemma PieceJoins(s: Stream, b: nat, i: nat, t: nat, j: nat, p: Packet, blk: Block)
    requires b < |s.Blocks()| && s.IsWire(p, b, i, t, j) && ShardOk(s, b, blk, i) && i !in blk.received
    requires |s.Pieces(b, i, t)| == s.Count(b, i) > 1
    ensures var parts := WithPiece(blk, p);
      && 0 < |parts| <= s.Count(b, i)
      && (forall l | l in parts :: l < s.Count(b, i) && HasSource(s, b, i, l, parts[l]))
  {
    assert IsPiece(s, b, i, t, j, p.payload);
    assert HasSource(s, b, i, j, p.payload);
    HeldGrows(s, b, i, blk, p);
  }

  lemma AbsorbWhole(s: Stream, b: nat, i: nat, t: nat, p: Packet, blk: Block)
    requires s.Sound() && s.IsWire(p, b, i, t, 0) && ShardOk(s, b, blk, i) && i !in blk.received && s.Count(b, i) == 1
    ensures ShardOk(s, b, Absorbed(blk, p), i)
  {
    WholeIsMix(s, b, i, t);
    assert i !in blk.subParts;
  }

  lemma AbsorbSplit(s: Stream, b: nat, i: nat, t: nat, j: nat, p: Packet, blk: Block)
    requires s.Sound() && s.IsWire(p, b, i, t, j) && ShardOk(s, b, blk, i) && i !in blk.received
    requires |s.Pieces(b, i, t)| == s.Count(b, i) > 1
    ensures ShardOk(s, b, Absorbed(blk, p), i)
  {
    PieceJoins(s, b, i, t, j, p, blk);
    var parts := WithPiece(blk, p);
    if |parts| == p.subTotal {
      var ts := CompletedIsMix(s, b, i, parts);
    }
  }

  /** A genuine piece of block b is absorbed into it soundly. */
  lemma AbsorbKeeps(s: Stream, b: nat, i: nat, t: nat, j: nat, p: Packet, blk: Block)
    requires s.Sound() && s.IsWire(p, b, i, t, j) && Collecting(s, b, blk)
    ensures Collecting(s, b, Absorbed(blk, p))
  {
    CountFixed(s, b, i, t);
    forall x: nat
      ensures ShardOk(s, b, Absorbed(blk, p), x)
    {
      assert ShardOk(s, b, blk, x);
      if x == i && i !in blk.received {
        if s.Count(b, i) == 1 { AbsorbWhole(s, b, i, t, p, blk); } else { AbsorbSplit(s, b, i, t, j, p, blk); }
      }
    }
  }

  lemma HeldGrows(s: Stream, b: nat, i: nat, blk: Block, p: Packet)
    requires b < |s.Blocks()| && ShardOk(s, b, blk, i) && p.shard == i && 1 < p.subTotal == s.Count(b, i)
    ensures 0 < |WithPiece(blk, p)| <= p.subTotal
  {
    var was := Held(blk, i);
    var now := WithPiece(blk, p);
    if p.subIndex !in was { assert now.Keys == was.Keys + {p.subIndex}; }
  }

  lemma WholeIsMix(s: Stream, b: nat, i: nat, t: nat)
    requires s.Sound() && b < |s.Blocks()| && s.Count(b, i) == 1
    ensures |s.Pieces(b, i, t)| == 1 && IsMix(s, b, i, s.Pieces(b, i, t)[0])
    ensures s.codec.open(s.Pieces(b, i, t)[0], i) == Some(s.Shard(b, i))
  {
    CountFixed(s, b, i, t);
    var ts := [t];
    var mixed := s.codec.Mixed(s.Shard(b, i), i, ts);
    assert mixed == [s.Pieces(b, i, t)[0]];
    ConcatOne(s.Pieces(b, i, t)[0]);
    assert MixOf(s, b, i, ts) == s.Pieces(b, i, t)[0];
    MixOpens(s, b, i, ts);
  }

  /** Whatever opens is the true shard. */
  lemma OpenedAreShards(s: Stream, b: nat, blk: Block)
    requires s.Sound() && b < |s.Blocks()| && Collecting(s, b, blk)
    ensures s.codec.ShardsOf(Opened(s.codec, blk), s.Padded(b))
    ensures |Opened(s.codec, blk)| <= |blk.received|
  {
    var plain := Opened(s.codec, blk);
    forall i | i in plain
      ensures i < |s.codec.enc(s.Padded(b))| && plain[i] == s.codec.enc(s.Padded(b))[i]
    {
      assert ShardOk(s, b, blk, i);
      var ts: seq<nat> :| |ts| == s.Count(b, i) && blk.chunks[i] == MixOf(s, b, i, ts);
      MixOpens(s, b, i, ts);
      assert |s.Padded(b)| >= s.codec.k;
    }
    assert plain.Keys <= blk.received by { assert forall i | i in plain :: ShardOk(s, b, blk, i); }
    SubsetCard(plain.Keys, blk.received);
  }

  lemma Decodes(s: Stream, b: nat, blk: Block)
    requires s.codec.ErasureCode() && b < |s.Blocks()| && s.codec.ShardsOf(Opened(s.codec, blk), s.Padded(b))
    requires blk.total == s.codec.Total() && blk.blockLen == |s.Blocks()[b]|
    ensures Rebuilt(s.codec, blk) == if |Opened(s.codec, blk)| >= s.codec.k then Some(s.Blocks()[b]) else None
  {
    if |Opened(s.codec, blk)| >= s.codec.k {
      assert s.codec.dec(Opened(s.codec, blk), blk.blockLen) == Some(s.Padded(b)[..blk.blockLen]);
      assert s.Padded(b)[..blk.blockLen] == s.Blocks()[b];
    }
  }

  /** A block is rebuilt exactly when k of its shards open, and then it is the true block. */
  lemma RebuiltBlock(s: Stream, b: nat, blk: Block)
    requires s.Sound() && b < |s.Blocks()| && Collecting(s, b, blk)
    requires blk.total == s.codec.Total() && blk.blockLen == |s.Blocks()[b]|
    ensures Rebuilt(s.codec, blk) == if |Opened(s.codec, blk)| >= s.codec.k then Some(s.Blocks()[b]) else None
    ensures |Opened(s.codec, blk)| <= |blk.received|
  {
    OpenedAreShards(s, b, blk);
    Decodes(s, b, blk);
  }

  ghost predicate Labelled(s: Stream, b: nat, blk: Block) {
    && b < |s.Blocks()| && blk.total == s.codec.Total()
    && blk.blockLen == |s.Blocks()[b]| && blk.final == (b == |s.Blocks()| - 1)
  }

  lemma SettledBlock(s: Stream, b: nat, blk: Block)
    requires s.Sound() && Labelled(s, b, blk) && Collecting(s, b, blk) && !blk.ready
    ensures BlockInv(s, b, Settled(s.codec, blk))
    ensures Settled(s.codec, blk).ready <==> |Opened(s.codec, blk)| >= s.codec.k
    ensures !Settled(s.codec, blk).ready ==> Settled(s.codec, blk) == blk
  {
    RebuiltBlock(s, b, blk);
  }

  /** The block is labelled correctly and, if ready, holds its true content. */
  ghost predicate Writable(s: Stream, b: nat, blk: Block) {
    b < |s.Blocks()| && blk.final == (b == |s.Blocks()| - 1) && (blk.ready ==> blk.data == s.Blocks()[b])
  }

  ghost predicate Written(s: Stream, a: Assembler) {
    && a.nextFlush <= |s.Blocks()| && a.sink == Concat(s.Blocks()[..a.nextFlush])
    && (a.done <==> a.nextFlush == |s.Blocks()|)
    && a.closes == (if a.done then 1 else 0)
  }

  lemma WriteOne(s: Stream, n: nat)
    requires n < |s.Blocks()|
    ensures Concat(s.Blocks()[..n + 1]) == Concat(s.Blocks()[..n]) + s.Blocks()[n]
  {
    assert s.Blocks()[..n + 1][..n] == s.Blocks()[..n];
  }

  lemma {:induction false} FlushKeeps(s: Stream, a: Assembler)
    requires Written(s, a) && !a.done && forall b | b in a.blocks :: Writable(s, b, a.blocks[b])
    ensures Written(s, Flushed(a)) && Drained(Flushed(a)) && a.nextFlush <= Flushed(a).nextFlush
    ensures forall b: nat | b in Flushed(a).blocks :: b in a.blocks && Flushed(a).blocks[b] == a.blocks[b]
    ensures forall b: nat | b in a.blocks && (b < a.nextFlush || b >= Flushed(a).nextFlush) :: b in Flushed(a).blocks
    decreases |a.blocks|
  {
    if a.nextFlush in a.blocks && a.blocks[a.nextFlush].ready {
      var b := a.blocks[a.nextFlush];
      Shrinks(a.blocks, a.nextFlush);
      var a' := a.(sink := a.sink + b.data, blocks := a.blocks - {a.nextFlush}, nextFlush := a.nextFlush + 1);
      assert Writable(s, a.nextFlush, b);
      WriteOne(s, a.nextFlush);
      if !b.final { FlushKeeps(s, a'); }
    }
  }

  lemma BlockForInv(s: Stream, a: Assembler, p: Packet, t: nat)
    requires s.Sound() && Inv(s, a) && s.IsWire(p, p.block, p.shard, t, p.subIndex)
    ensures BlockInv(s, p.block, BlockFor(a, p))
  {
    if p.block !in a.blocks {
      assert Opened(s.codec, NewBlock(p)) == map[];
    }
  }

  /** The block of p after p: still sound, and rebuilt if k shards now open. */
  lemma NextBlock(s: Stream, a: Assembler, p: Packet, t: nat)
    requires s.Sound() && Inv(s, a) && s.IsWire(p, p.block, p.shard, t, p.subIndex) && !BlockFor(a, p).ready
    ensures BlockInv(s, p.block, Settled(s.codec, Absorbed(BlockFor(a, p), p)))
  {
    BlockForInv(s, a, p, t);
    AbsorbKeeps(s, p.block, p.shard, t, p.subIndex, p, BlockFor(a, p));
    SettledBlock(s, p.block, Absorbed(BlockFor(a, p), p));
  }

  lemma FlushInv(s: Stream, a: Assembler)
    requires Prefix(s, a) && !a.done
    ensures Inv(s, Flushed(a)) && a.nextFlush <= Flushed(a).nextFlush
  {
    forall b | b in a.blocks
      ensures Writable(s, b, a.blocks[b])
    {
      assert BlockInv(s, b, a.blocks[b]);
    }
    FlushKeeps(s, a);
  }

  lemma {:induction false} AddKeeps(s: Stream, a: Assembler, p: Packet)
    requires s.Sound() && Inv(s, a) && s.Genuine(p)
    ensures Inv(s, Added(s.codec, a, p)) && a.nextFlush <= Added(s.codec, a, p).nextFlush
  {
    var t: nat :| s.IsWire(p, p.block, p.shard, t, p.subIndex);
    if !a.done && !BlockFor(a, p).ready {
      NextBlock(s, a, p, t);
      FlushInv(s, a.(blocks := a.blocks[p.block := Settled(s.codec, Absorbed(BlockFor(a, p), p))]));
    }
  }

  lemma EmptyInv(s: Stream)
    ensures Inv(s, Empty())
  {
    assert s.Blocks()[..0] == [];
  }

  /** Prefix safety over every sequence of genuine arrivals. The sink is closed exactly when,
      and only once, it holds the whole payload. */
  lemma {:induction false} PrefixSafety(s: Stream, ps: seq<Packet>)
    requires s.Sound() && forall p | p in ps :: s.Genuine(p)
    ensures Inv(s, AddedAll(s.codec, Empty(), ps))
    ensures var a := AddedAll(s.codec, Empty(), ps);
      && a.sink == Concat(s.Blocks()[..a.nextFlush])
      && (a.done ==> a.sink == s.data && a.closes == 1)
      && (!a.done ==> a.closes == 0)
  {
    if ps == [] {
      EmptyInv(s);
    } else {
      PrefixSafety(s, ps[..|ps| - 1]);
      AddKeeps(s, AddedAll(s.codec, Empty(), ps[..|ps| - 1]), ps[|ps| - 1]);
    }
    assert s.Blocks()[..|s.Blocks()|] == s.Blocks();
    CutJoins(s.data, s.size);
  }

  /** A late piece of a block already written changes neither the sink nor what comes next. */
  lemma {:induction false} LatePieceHarmless(s: Stream, a: Assembler, p: Packet)
    requires s.Sound() && Inv(s, a) && s.Genuine(p) && p.block < a.nextFlush
    ensures var a' := Added(s.codec, a, p);
      && a'.sink == a.sink && a'.nextFlush == a.nextFlush && a'.done == a.done && a'.closes == a.closes
      && forall b | b in a.blocks && b != p.block :: b in a'.blocks && a'.blocks[b] == a.blocks[b]
  {
    var t: nat :| s.IsWire(p, p.block, p.shard, t, p.subIndex);
  }
}
