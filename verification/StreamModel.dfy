/** Block-wise streaming (internal/transfer/streaming.go, the sub-chunking of
    internal/transfer/transfer.go and internal/fragment): a payload is cut into blocks, each
    block is erasure-coded into shards, each shard is sealed under a fresh nonce and cut into
    wire pieces. The receiver rebuilds shards, then blocks, and writes blocks in order. */
module StreamModel {
  import opened Basics

  /** The width of a byte plays no part here, so bytes are numbers. */
  type Bytes = seq<int>

  const DEFAULT_BLOCK_SIZE: nat := 0x40_0000

  /** data in pieces of size bytes, the last one possibly shorter; empty data is one empty
      piece, and a size of zero leaves data whole. */
  function Cut(data: Bytes, size: nat): (pieces: seq<Bytes>)
    ensures |pieces| > 0
    decreases |data|
  {
    if size == 0 || |data| <= size then [data] else [data[..size]] + Cut(data[size..], size)
  }

  lemma {:induction false} CutJoins(data: Bytes, size: nat)
    ensures Concat(Cut(data, size)) == data
    decreases |data|
  {
    if size == 0 || |data| <= size {
      ConcatOne(data);
    } else {
      CutJoins(data[size..], size);
      ConcatOne(data[..size]);
      ConcatPlus([data[..size]], Cut(data[size..], size));
    }
  }

  /** All pieces but the last are full, and the last is not longer and empty only for empty data. */
  lemma {:induction false} CutSizes(data: Bytes, size: nat)
    requires size > 0
    ensures var pieces := Cut(data, size);
      && (forall i :: 0 <= i < |pieces| - 1 ==> |pieces[i]| == size)
      && |pieces[|pieces| - 1]| <= size && (data != [] ==> pieces[|pieces| - 1] != [])
    decreases |data|
  {
    if |data| > size { CutSizes(data[size..], size); }
  }

  lemma {:induction false} CutCount(a: Bytes, b: Bytes, size: nat)
    requires |a| == |b|
    ensures |Cut(a, size)| == |Cut(b, size)|
    decreases |a|
  {
    if size != 0 && |a| > size { CutCount(a[size..], b[size..], size); }
  }

  /** Seeking to a block boundary and cutting the rest yields the remaining blocks. */
  lemma {:induction false} CutFrom(data: Bytes, size: nat, s: nat)
    requires size > 0 && s < |Cut(data, size)|
    ensures s * size <= |data|
    ensures Cut(data[s * size..], size) == Cut(data, size)[s..]
    decreases s
  {
    if s == 0 {
      assert data[0..] == data;
    } else {
      CutFrom(data[size..], size, s - 1);
      assert s * size == size + (s - 1) * size;
      assert data[size..][(s - 1) * size..] == data[s * size..];
    }
  }

  // ---- the codec ----------------------------------------------------------------------

  /** k data and m parity shards, pieces of at most sub bytes (0: never split), the erasure
      code and the sealer. dec rebuilds a block of the given length from opened shards. A shard
      is sealed with its index and under a nonce that is fresh for every attempt, so the
      attempt names the nonce. */
  datatype Codec = Codec(
    k: nat, m: nat, sub: nat,
    enc: Bytes -> seq<Bytes>,
    dec: (map<nat, Bytes>, nat) -> Option<Bytes>,
    seal: (Bytes, nat, nat) -> Bytes,
    open: (Bytes, nat) -> Option<Bytes>)
  {
    function Total(): nat { k + m }

    function Pieces(x: Bytes, i: nat, n: nat): seq<Bytes> { Cut(seal(x, i, n), sub) }

    /** Piece j of a sealing, for each j from the sealing of attempt ts[j]. */
    function Mixed(x: Bytes, i: nat, ts: seq<nat>): seq<Bytes> {
      seq(|ts|, j requires 0 <= j < |ts| => if j < |Pieces(x, i, ts[j])| then Pieces(x, i, ts[j])[j] else [])
    }

    /** parts holds shards of the encoding of block. */
    predicate ShardsOf(parts: map<nat, Bytes>, block: Bytes) {
      forall i | i in parts :: i < |enc(block)| && parts[i] == enc(block)[i]
    }

    /** What is taken from the Reed-Solomon library: any k shards determine the block. */
    ghost predicate ErasureCode() {
      && k > 0 && m > 0
      && (forall block: Bytes :: |block| >= k ==> |enc(block)| == Total())
      && (forall block: Bytes, parts: map<nat, Bytes>, len: nat {:trigger ShardsOf(parts, block), dec(parts, len)} ::
            |block| >= k && len <= |block| && |parts| >= k && ShardsOf(parts, block) ==>
              dec(parts, len) == Some(block[..len]))
    }

    /** What is taken from the AEAD: a sealing opens to its content, its length does not
        depend on the attempt, and pieces of different sealings do not open together. */
    ghost predicate Aead() {
      && (forall x: Bytes, i: nat, n: nat :: open(seal(x, i, n), i) == Some(x))
      && (forall x: Bytes, i: nat, n: nat :: |seal(x, i, n)| == |seal(x, i, 0)|)
      && (forall x: Bytes, i: nat, ts: seq<nat> {:trigger Mixed(x, i, ts)} ::
            ts != [] && |ts| == |Pieces(x, i, ts[0])| && !OneAttempt(ts) ==> open(Concat(Mixed(x, i, ts)), i) == None)
    }

    ghost predicate Sound() { ErasureCode() && Aead() }
  }

  predicate OneAttempt(ts: seq<nat>) { forall j :: 0 <= j < |ts| ==> ts[j] == ts[0] }

  /** Pieces that all come from one sealing rebuild it. */
  lemma UnmixedOpens(c: Codec, x: Bytes, i: nat, ts: seq<nat>)
    requires c.Sound() && ts != [] && |ts| == |c.Pieces(x, i, ts[0])| && OneAttempt(ts)
    ensures c.open(Concat(c.Mixed(x, i, ts)), i) == Some(x)
  {
    assert c.Mixed(x, i, ts) == c.Pieces(x, i, ts[0]);
    CutJoins(c.seal(x, i, ts[0]), c.sub);
  }

  // ---- the sending side ------------------------------------------------------------------

  datatype Packet = Packet(block: nat, blockLen: nat, final: bool, shard: nat, total: nat,
                           subIndex: nat, subTotal: nat, payload: Bytes)

  /** A block shorter than k bytes is padded with zeros so that it can be split. */
  function Pad(block: Bytes, k: nat): Bytes {
    if |block| < k then block + seq(k - |block|, _ => 0) else block
  }

  datatype Stream = Stream(data: Bytes, size: nat, codec: Codec)
  {
    function Blocks(): seq<Bytes> { Cut(data, size) }

    function Padded(b: nat): Bytes
      requires b < |Blocks()|
    {
      Pad(Blocks()[b], codec.k)
    }

    function Shard(b: nat, i: nat): Bytes
      requires b < |Blocks()|
    {
      if i < |codec.enc(Padded(b))| then codec.enc(Padded(b))[i] else []
    }

    /** The pieces of shard i of block b as sealed by the given attempt. */
    function Pieces(b: nat, i: nat, t: nat): seq<Bytes>
      requires b < |Blocks()|
    {
      codec.Pieces(Shard(b, i), i, t)
    }

    function Count(b: nat, i: nat): nat
      requires b < |Blocks()|
    {
      |Pieces(b, i, 0)|
    }

    function Wire(b: nat, i: nat, t: nat, j: nat): Packet
      requires b < |Blocks()| && j < |Pieces(b, i, t)|
    {
      Packet(b, |Blocks()[b]|, b == |Blocks()| - 1, i, codec.Total(), j, |Pieces(b, i, t)|, Pieces(b, i, t)[j])
    }

    /** p is piece j of shard i of block b, sent by attempt t. */
    predicate IsWire(p: Packet, b: nat, i: nat, t: nat, j: nat) {
      b < |Blocks()| && i < codec.Total() && j < |Pieces(b, i, t)| && p == Wire(b, i, t, j)
    }

    ghost predicate Genuine(p: Packet) { exists t: nat :: IsWire(p, p.block, p.shard, t, p.subIndex) }

    ghost predicate Sound() { size > 0 && codec.Sound() }
  }

  lemma CountFixed(s: Stream, b: nat, i: nat, t: nat)
    requires s.Sound() && b < |s.Blocks()|
    ensures |s.Pieces(b, i, t)| == s.Count(b, i) > 0
  {
    CutCount(s.codec.seal(s.Shard(b, i), i, t), s.codec.seal(s.Shard(b, i), i, 0), s.codec.sub);
  }

  // ---- the receiving side -----------------------------------------------------------------

  datatype Block = Block(total: nat, blockLen: nat, final: bool, received: set<nat>, chunks: map<nat, Bytes>,
                         subParts: map<nat, map<nat, Bytes>>, data: Bytes, ready: bool)

  datatype Assembler = Assembler(blocks: map<nat, Block>, nextFlush: nat, done: bool, sink: Bytes, closes: nat)

  function Empty(): Assembler { Assembler(map[], 0, false, [], 0) }

  function NewBlock(p: Packet): Block { Block(p.total, p.blockLen, p.final, {}, map[], map[], [], false) }

  /** The pieces 0..n of a shard in order; a missing piece contributes nothing. */
  function Ordered(parts: map<nat, Bytes>, n: nat): seq<Bytes> {
    seq(n, j requires 0 <= j < n => if j in parts then parts[j] else [])
  }

  function Held(b: Block, i: nat): map<nat, Bytes> { if i in b.subParts then b.subParts[i] else map[] }

  function WithPiece(b: Block, p: Packet): map<nat, Bytes> {
    if p.subIndex in Held(b, p.shard) then Held(b, p.shard) else Held(b, p.shard)[p.subIndex := p.payload]
  }

  /** Records one piece: a repeated, out-of-range or still incomplete shard changes at most the
      partial pieces; a completed shard moves to the chunks. */
  function Absorbed(b: Block, p: Packet): Block {
    if p.shard in b.received then b
    else if p.subTotal <= 1 then WithChunk(b, p.shard, p.payload)
    else if p.subIndex >= p.subTotal then b
    else if |WithPiece(b, p)| < p.subTotal then b.(subParts := b.subParts[p.shard := WithPiece(b, p)])
    else WithChunk(b.(subParts := b.subParts - {p.shard}), p.shard, Concat(Ordered(WithPiece(b, p), p.subTotal)))
  }

  function WithChunk(b: Block, i: nat, payload: Bytes): Block {
    b.(chunks := b.chunks[i := payload], received := b.received + {i})
  }

  /** The shards that open; one that does not is treated as missing. */
  function Opened(c: Codec, b: Block): map<nat, Bytes> {
    map i | i in b.chunks && i < c.Total() && c.open(b.chunks[i], i).Some? :: c.open(b.chunks[i], i).value
  }

  function Rebuilt(c: Codec, b: Block): Option<Bytes> {
    if b.total == c.Total() && |Opened(c, b)| >= c.k then c.dec(Opened(c, b), b.blockLen) else None
  }

  function Settled(c: Codec, b: Block): Block {
    if |b.received| >= c.k && Rebuilt(c, b).Some?
    then b.(data := Rebuilt(c, b).value, ready := true, received := {}, chunks := map[], subParts := map[])
    else b
  }

  /** Writes the ready blocks that continue the sink, and closes it after the final one. */
  function Flushed(a: Assembler): Assembler
    decreases |a.blocks|
  {
    if a.nextFlush !in a.blocks || !a.blocks[a.nextFlush].ready then a
    else
      var b := a.blocks[a.nextFlush];
      var a' := a.(sink := a.sink + b.data, blocks := a.blocks - {a.nextFlush}, nextFlush := a.nextFlush + 1);
      if b.final then a'.(done := true, closes := a.closes + 1)
      else Shrinks(a.blocks, a.nextFlush); Flushed(a')
  }

  lemma Shrinks<V>(m: map<nat, V>, k: nat)
    requires k in m
    ensures |m - {k}| < |m|
  {
    assert (m - {k}).Keys == m.Keys - {k};
    assert |(m - {k}).Keys| < |m.Keys|;
  }

  function BlockFor(a: Assembler, p: Packet): Block {
    if p.block in a.blocks then a.blocks[p.block] else NewBlock(p)
  }

  function Added(c: Codec, a: Assembler, p: Packet): Assembler {
    if a.done then a
    else if BlockFor(a, p).ready then a
    else Flushed(a.(blocks := a.blocks[p.block := Settled(c, Absorbed(BlockFor(a, p), p))]))
  }

  /** The assembler after a sequence of arrivals. */
  function AddedAll(c: Codec, a: Assembler, ps: seq<Packet>): Assembler {
    if ps == [] then a else Added(c, AddedAll(c, a, ps[..|ps| - 1]), ps[|ps| - 1])
  }
}
