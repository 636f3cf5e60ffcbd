/** The loops and the assembler object of the streaming layer, proved against StreamModel. A
    reader is its content and a position; nothing else about it can fail here. */
module StreamObjects {
  import opened Basics
  import opened StreamModel

  lemma CutStep(data: Bytes, size: nat, off: nat)
    requires size > 0 && off < |data|
    ensures |data| - off <= size ==> Cut(data[off..], size) == [data[off..]]
    ensures |data| - off > size ==> Cut(data[off..], size) == [data[off..off + size]] + Cut(data[off + size..], size)
  {
    if |data| - off > size {
      assert data[off..][..size] == data[off..off + size] && data[off..][size..] == data[off + size..];
    }
  }

  /** data in chunks of chunkSize bytes; nothing for empty data or a non-positive size. */
  method Split(data: Bytes, chunkSize: int) returns (chunks: seq<Bytes>)
    ensures chunks == if chunkSize <= 0 || data == [] then [] else Cut(data, chunkSize)
  {
    if chunkSize <= 0 || data == [] { return []; }
    chunks := [];
    var i := 0;
    assert data[0..] == data;
    while i < |data|
      invariant 0 <= i
      invariant i < |data| ==> chunks + Cut(data[i..], chunkSize) == Cut(data, chunkSize)
      invariant i >= |data| ==> chunks == Cut(data, chunkSize)
    {
      CutStep(data, chunkSize, i);
      var end := i + chunkSize;
      if end > |data| { end := |data|; }
      assert chunks + Cut(data[i..], chunkSize) == Cut(data, chunkSize);
      assert |data| - i <= chunkSize ==> data[i..end] == data[i..];
      chunks := chunks + [data[i..end]];
      i := i + chunkSize;
    }
  }

  /** The wire pieces of one sealed shard. */
  method FragmentPieces(payload: Bytes, subChunkSize: int) returns (pieces: seq<Bytes>)
    ensures pieces == Cut(payload, if subChunkSize <= 0 then 0 else subChunkSize)
  {
    if subChunkSize <= 0 || |payload| <= subChunkSize { return [payload]; }
    pieces := Split(payload, subChunkSize);
  }

  datatype Emitted = Emitted(index: nat, data: Bytes, final: bool)

  /** The blocks numbered from start, the last one marked final. */
  function Tagged(blocks: seq<Bytes>, start: nat): seq<Emitted> {
    seq(|blocks|, i requires 0 <= i < |blocks| => Emitted(start + i, blocks[i], i == |blocks| - 1))
  }

  /** All blocks but the last are full, 4 MiB by default. */
  lemma {:induction false} BlockSizes(content: Bytes, blockSize: int, start: nat, i: nat)
    requires i < |Cut(content, if blockSize <= 0 then DEFAULT_BLOCK_SIZE else blockSize)| - 1
    ensures var out := Tagged(Cut(content, if blockSize <= 0 then DEFAULT_BLOCK_SIZE else blockSize), start);
      |out[i].data| == (if blockSize <= 0 then 4_194_304 else blockSize) && !out[i].final && out[i].index == start + i
  {
    CutSizes(content, if blockSize <= 0 then DEFAULT_BLOCK_SIZE else blockSize);
  }

  /** A full read of at most size bytes: none at the end, and last when it came up short. */
  method ReadBlock(content: Bytes, pos: nat, size: nat) returns (block: Option<Bytes>, last: bool, pos': nat)
    requires size > 0 && pos <= |content|
    ensures pos == |content| ==> block == None && last && pos' == pos
    ensures pos < |content| ==>
              && pos' == (if pos + size <= |content| then pos + size else |content|)
              && block == Some(content[pos..pos']) && last == (pos + size > |content|)
  {
    if pos == |content| { return None, true, pos; }
    if pos + size <= |content| { return Some(content[pos..pos + size]), false, pos + size; }
    assert content[pos..] == content[pos..|content|];
    return Some(content[pos..]), true, |content|;
  }

  /** Reads the content from pos one block at a time with one block of lookahead, so that the
      last block is marked final even when the length is a multiple of the block size. */
  method StreamBlocks(content: Bytes, pos: nat, blockSize: int, start: nat) returns (out: seq<Emitted>)
    requires pos <= |content|
    ensures out == Tagged(Cut(content[pos..], if blockSize <= 0 then DEFAULT_BLOCK_SIZE else blockSize), start)
  {
    var size := if blockSize <= 0 then DEFAULT_BLOCK_SIZE else blockSize;
    out := [];
    var first, prevFinal, at := ReadBlock(content, pos, size);
    if first.None? { return [Emitted(start, [], true)]; }
    var prev := first.value;
    var index := start;
    ghost var all := Cut(content[pos..], size);
    ghost var from := pos;
    while !prevFinal
      invariant pos <= from < at <= |content| && prev == content[from..at]
      invariant at == if from + size <= |content| then from + size else |content|
      invariant prevFinal == (from + size > |content|)
      invariant index == start + |out|
      invariant |out| < |all| && all[|out|..] == Cut(content[from..], size)
      invariant forall i :: 0 <= i < |out| ==> out[i] == Emitted(start + i, all[i], false)
      decreases |content| - from
    {
      CutStep(content, size, from);
      var next, nextFinal, at' := ReadBlock(content, at, size);
      if next.None? {
        assert |all| == |out| + 1 && all[|out|] == prev;
        out := out + [Emitted(index, prev, true)];
        assert out == Tagged(all, start);
        return;
      }
      assert all[|out|] == all[|out|..][0] == prev;
      assert all[|out| + 1..] == all[|out|..][1..] == Cut(content[at..], size);
      out := out + [Emitted(index, prev, false)];
      index := index + 1;
      from := at;
      prev, prevFinal, at := next.value, nextFinal, at';
    }
    CutStep(content, size, from);
    assert |all| == |out| + 1 && all[|out|] == all[|out|..][0] == prev;
    out := out + [Emitted(index, prev, true)];
    assert out == Tagged(all, start);
  }

  // ---- the assembler ---------------------------------------------------------------------

  class StreamAssembler {
    const codec: Codec
    var blocks: map<nat, Block>
    var nextFlush: nat
    var done: bool
    var sink: Bytes
    var closes: nat

    ghost function Model(): Assembler
      reads this
    {
      Assembler(blocks, nextFlush, done, sink, closes)
    }

    constructor (codec: Codec)
      ensures this.codec == codec && Model() == Empty()
    {
      this.codec := codec;
      blocks, nextFlush, done, sink, closes := map[], 0, false, [], 0;
    }

    /** Absorbs one arrived piece; true once the whole stream has been written. */
    method Add(p: Packet) returns (complete: bool)
      modifies this
      ensures Model() == Added(codec, old(Model()), p) && complete == done
    {
      if done { return true; }
      var b := if p.block in blocks then blocks[p.block] else NewBlock(p);
      if b.ready { return done; }
      b := AbsorbPiece(b, p);
      if |b.received| >= codec.k {
        var rebuilt := ReconstructBlock(codec, b);
        if rebuilt.Some? {
          b := b.(data := rebuilt.value, ready := true, received := {}, chunks := map[], subParts := map[]);
        }
      }
      blocks := blocks[p.block := b];
      FlushReady();
      return done;
    }

    method FlushReady()
      modifies this
      ensures Model() == Flushed(old(Model()))
    {
      ghost var was := Model();
      while nextFlush in blocks && blocks[nextFlush].ready
        invariant Flushed(Model()) == Flushed(was)
        decreases |blocks|
      {
        var b := blocks[nextFlush];
        Shrinks(blocks, nextFlush);
        sink := sink + b.data;
        blocks := blocks - {nextFlush};
        nextFlush := nextFlush + 1;
        if b.final {
          done := true;
          closes := closes + 1;
          return;
        }
      }
    }
  }

  method AbsorbPiece(b: Block, p: Packet) returns (b': Block)
    ensures b' == Absorbed(b, p)
  {
    if p.shard in b.received { return b; }
    if p.subTotal <= 1 { return WithChunk(b, p.shard, p.payload); }
    if p.subIndex >= p.subTotal { return b; }
    var parts := if p.shard in b.subParts then b.subParts[p.shard] else map[];
    if p.subIndex !in parts { parts := parts[p.subIndex := p.payload]; }
    if |parts| < p.subTotal { return b.(subParts := b.subParts[p.shard := parts]); }
    var buf: Bytes := [];
    for i := 0 to p.subTotal
      invariant buf == Concat(Ordered(parts, i))
    {
      var piece := if i in parts then parts[i] else [];
      assert Ordered(parts, i + 1)[..i] == Ordered(parts, i);
      buf := buf + piece;
    }
    return WithChunk(b.(subParts := b.subParts - {p.shard}), p.shard, buf);
  }

  /** Opens the shards held, skipping those that do not open, and decodes if k remain. */
  method ReconstructBlock(c: Codec, b: Block) returns (data: Option<Bytes>)
    ensures data == Rebuilt(c, b)
  {
    if b.total != c.Total() { return None; }
    var shards: map<nat, Bytes> := map[];
    for i := 0 to c.Total()
      invariant forall j :: j in shards <==> j in b.chunks && 0 <= j < i && c.open(b.chunks[j], j).Some?
      invariant forall j | j in shards :: shards[j] == c.open(b.chunks[j], j).value
    {
      if i in b.chunks {
        var plain := c.open(b.chunks[i], i);
        if plain.Some? { shards := shards[i := plain.value]; }
      }
    }
    assert shards == Opened(c, b);
    if |shards| < c.k { return None; }
    return c.dec(shards, b.blockLen);
  }
}
