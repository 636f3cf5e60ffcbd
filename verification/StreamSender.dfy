/** One sending attempt of a resumable stream (internal/transfer/streaming.go:205-242, 297-385
    and internal/transfer/transfer.go:1185-1210): seek to the block the receiver asked for, cut
    the rest into blocks, encode and seal each block's shards, cut every shard into pieces. */
module StreamSender {
  import opened Basics
  import opened StreamModel
  import opened StreamObjects
  import opened StreamResume

  datatype Fragment = Fragment(block: nat, blockLen: nat, final: bool, index: nat, total: nat, payload: Bytes)

  /** Seals the shards of block number b, then stamps each with the block's number, its true
      length before padding and its final mark. */
  method EncodeBlock(c: Codec, b: nat, block: Bytes, final: bool, t: nat) returns (frags: seq<Fragment>)
    ensures |frags| == |c.enc(Pad(block, c.k))|
    ensures forall i :: 0 <= i < |frags| ==>
              frags[i] == Fragment(b, |block|, final, i, |frags|, c.seal(c.enc(Pad(block, c.k))[i], i, t))
  {
    var shards := c.enc(Pad(block, c.k));
    frags := [];
    for i := 0 to |shards|
      invariant |frags| == i
      invariant forall l :: 0 <= l < i ==> frags[l] == Fragment(0, 0, false, l, |shards|, c.seal(shards[l], l, t))
    {
      frags := frags + [Fragment(0, 0, false, i, |shards|, c.seal(shards[i], i, t))];
    }
    for i := 0 to |frags|
      invariant |frags| == |shards|
      invariant forall l :: 0 <= l < |frags| ==>
                  frags[l].index == l && frags[l].total == |shards| && frags[l].payload == c.seal(shards[l], l, t)
      invariant forall l :: 0 <= l < i ==>
                  frags[l].block == b && frags[l].blockLen == |block| && frags[l].final == final
    {
      frags := frags[i := frags[i].(block := b, blockLen := |block|, final := final)];
    }
  }

  /** The packets of one sealed shard, one for each piece, in order. */
  method SendFragment(f: Fragment, sub: nat) returns (ps: seq<Packet>)
    ensures |ps| == |Cut(f.payload, sub)|
    ensures forall j :: 0 <= j < |ps| ==>
              ps[j] == Packet(f.block, f.blockLen, f.final, f.index, f.total, j, |ps|, Cut(f.payload, sub)[j])
  {
    var pieces := FragmentPieces(f.payload, sub);
    ps := [];
    for j := 0 to |pieces|
      invariant |ps| == j
      invariant forall l :: 0 <= l < j ==>
                  ps[l] == Packet(f.block, f.blockLen, f.final, f.index, f.total, l, |pieces|, pieces[l])
    {
      ps := ps + [Packet(f.block, f.blockLen, f.final, f.index, f.total, j, |pieces|, pieces[j])];
    }
  }

  // ---- what an attempt sends ------------------------------------------------------------------

  /** The pieces of shard i of block b as attempt t sends them. */
  function OfShard(s: Stream, t: nat, b: nat, i: nat): seq<Packet>
    requires b < |s.Blocks()|
  {
    seq(|s.Pieces(b, i, t)|, j requires 0 <= j < |s.Pieces(b, i, t)| => s.Wire(b, i, t, j))
  }

  /** The first n shards of block b. */
  function OfBlock(s: Stream, t: nat, b: nat, n: nat): seq<Packet>
    requires b < |s.Blocks()|
  {
    if n == 0 then [] else OfBlock(s, t, b, n - 1) + OfShard(s, t, b, n - 1)
  }

  /** The blocks from number from up to number to. */
  function OfBlocks(s: Stream, t: nat, from: nat, to: nat): seq<Packet>
    requires to <= |s.Blocks()|
  {
    if to <= from then [] else OfBlocks(s, t, from, to - 1) + OfBlock(s, t, to - 1, s.codec.Total())
  }

  /** Everything attempt t sends when it resumes at block from. */
  function Sending(s: Stream, t: nat, from: nat): seq<Packet> { OfBlocks(s, t, from, |s.Blocks()|) }

  /** p comes before q: an earlier block, or shard of the block, or piece of the shard. */
  predicate Before(p: Packet, q: Packet) {
    || p.block < q.block
    || (p.block == q.block && p.shard < q.shard)
    || (p.block == q.block && p.shard == q.shard && p.subIndex < q.subIndex)
  }

  predicate Ascending(ps: seq<Packet>) { forall l, r :: 0 <= l < r < |ps| ==> Before(ps[l], ps[r]) }

  /** Exactly the pieces of the blocks from number from up to number to, each once, in ascending
      order. */
  ghost predicate InOrder(s: Stream, t: nat, from: nat, to: nat, ps: seq<Packet>)
    requires to <= |s.Blocks()|
  {
    && Ascending(ps)
    && (forall p | p in ps :: FromAttempt(s, t, p) && from <= p.block < to)
    && (forall b: nat, i: nat | from <= b < to && i < s.codec.Total() :: Whole(s, ps, b, i))
  }

  lemma OfShardIs(s: Stream, t: nat, b: nat, i: nat)
    requires s.Sound() && b < |s.Blocks()| && i < s.codec.Total()
    ensures forall p | p in OfShard(s, t, b, i) :: FromAttempt(s, t, p) && p.block == b && p.shard == i
    ensures Ascending(OfShard(s, t, b, i)) && Whole(s, OfShard(s, t, b, i), b, i)
  {
    CountFixed(s, b, i, t);
    forall j: nat | j < s.Count(b, i)
      ensures HasPacket(OfShard(s, t, b, i), b, i, j)
    {
      assert OfShard(s, t, b, i)[j] in OfShard(s, t, b, i);
    }
  }

  lemma AscendingPlus(ps: seq<Packet>, more: seq<Packet>)
    requires Ascending(ps) && Ascending(more) && forall p, q | p in ps && q in more :: Before(p, q)
    ensures Ascending(ps + more)
  {
    var all := ps + more;
    forall l, r | 0 <= l < r < |all|
      ensures Before(all[l], all[r])
    {
      if l < |ps| <= r { assert all[l] in ps && all[r] in more; }
    }
  }

  lemma {:induction false} OfBlockIs(s: Stream, t: nat, b: nat, n: nat)
    requires s.Sound() && b < |s.Blocks()| && n <= s.codec.Total()
    ensures forall p | p in OfBlock(s, t, b, n) :: FromAttempt(s, t, p) && p.block == b && p.shard < n
    ensures Ascending(OfBlock(s, t, b, n)) && forall i: nat | i < n :: Whole(s, OfBlock(s, t, b, n), b, i)
  {
    if n > 0 {
      var ps, more := OfBlock(s, t, b, n - 1), OfShard(s, t, b, n - 1);
      OfBlockIs(s, t, b, n - 1);
      OfShardIs(s, t, b, n - 1);
      AscendingPlus(ps, more);
      forall i: nat | i < n
        ensures Whole(s, ps + more, b, i)
      {
        WholeIn(s, if i < n - 1 then ps else more, ps + more, b, i);
      }
    }
  }

  lemma WholeIn(s: Stream, ps: seq<Packet>, all: seq<Packet>, b: nat, i: nat)
    requires b < |s.Blocks()| && Whole(s, ps, b, i) && forall p | p in ps :: p in all
    ensures Whole(s, all, b, i)
  {
    forall j: nat | j < s.Count(b, i)
      ensures HasPacket(all, b, i, j)
    {
      assert HasPacket(ps, b, i, j);
    }
  }

  lemma {:induction false} OfBlocksIs(s: Stream, t: nat, from: nat, to: nat)
    requires s.Sound() && to <= |s.Blocks()|
    ensures InOrder(s, t, from, to, OfBlocks(s, t, from, to))
  {
    if from < to {
      var ps, more := OfBlocks(s, t, from, to - 1), OfBlock(s, t, to - 1, s.codec.Total());
      OfBlocksIs(s, t, from, to - 1);
      OneBlockIs(s, t, to - 1, to, more);
      InOrderPlus(s, t, from, to - 1, to, ps, more);
    }
  }

  lemma OneBlockIs(s: Stream, t: nat, b: nat, to: nat, ps: seq<Packet>)
    requires s.Sound() && b < |s.Blocks()| && to == b + 1 && ps == OfBlock(s, t, b, s.codec.Total())
    ensures InOrder(s, t, b, to, ps)
  {
    OfBlockIs(s, t, b, s.codec.Total());
  }

  lemma InOrderPlus(s: Stream, t: nat, from: nat, mid: nat, to: nat, ps: seq<Packet>, more: seq<Packet>)
    requires from <= mid <= to <= |s.Blocks()| && InOrder(s, t, from, mid, ps) && InOrder(s, t, mid, to, more)
    ensures InOrder(s, t, from, to, ps + more)
  {
    AscendingPlus(ps, more);
    forall b: nat, i: nat | from <= b < to && i < s.codec.Total()
      ensures Whole(s, ps + more, b, i)
    {
      WholeIn(s, if b < mid then ps else more, ps + more, b, i);
    }
  }

  lemma SendingInOrder(s: Stream, t: nat, from: nat)
    requires s.Sound()
    ensures InOrder(s, t, from, |s.Blocks()|, Sending(s, t, from))
  {
    OfBlocksIs(s, t, from, |s.Blocks()|);
  }

  // ---- the sending loops ------------------------------------------------------------------------

  /** All packets of one block as it was read. */
  method SendBlock(s: Stream, e: Emitted, t: nat) returns (ps: seq<Packet>)
    requires s.Sound() && e.index < |s.Blocks()|
    requires e.data == s.Blocks()[e.index] && e.final == (e.index == |s.Blocks()| - 1)
    ensures ps == OfBlock(s, t, e.index, s.codec.Total())
    ensures Ascending(ps) && forall p | p in ps :: FromAttempt(s, t, p) && p.block == e.index
    ensures forall i: nat | i < s.codec.Total() :: Whole(s, ps, e.index, i)
  {
    var frags := EncodeBlock(s.codec, e.index, e.data, e.final, t);
    assert |s.Padded(e.index)| >= s.codec.k;
    ps := [];
    for i := 0 to |frags|
      invariant |frags| == s.codec.Total()
      invariant ps == OfBlock(s, t, e.index, i)
    {
      var more := SendFragment(frags[i], s.codec.sub);
      assert more == OfShard(s, t, e.index, i);
      ps := ps + more;
    }
    OfBlockIs(s, t, e.index, s.codec.Total());
  }

  /** Seeks to a block and reads from there: the stream's own blocks, numbers and final mark. */
  method SeekAndRead(s: Stream, from: nat) returns (blocks: seq<Emitted>)
    requires s.size > 0 && from < |s.Blocks()|
    ensures blocks == Tagged(s.Blocks()[from..], from)
  {
    CutFrom(s.data, s.size, from);
    blocks := StreamBlocks(s.data, from * s.size, s.size, from);
  }

  lemma BlockRead(s: Stream, from: nat, blocks: seq<Emitted>, n: nat)
    requires from < |s.Blocks()| && blocks == Tagged(s.Blocks()[from..], from) && n < |blocks|
    ensures from + n < |s.Blocks()|
    ensures blocks[n] == Emitted(from + n, s.Blocks()[from + n], from + n == |s.Blocks()| - 1)
  {
  }

  /** A resumed attempt sends every piece of every block from resumeFrom on, in ascending order,
      with the block numbers, lengths and final mark of the whole stream. */
  method SendResumed(s: Stream, t: nat, resumeFrom: nat) returns (ps: seq<Packet>)
    requires s.Sound() && resumeFrom < |s.Blocks()|
    ensures ps == Sending(s, t, resumeFrom) && InOrder(s, t, resumeFrom, |s.Blocks()|, ps)
  {
    var blocks := SeekAndRead(s, resumeFrom);
    ps := [];
    for n := 0 to |blocks|
      invariant blocks == Tagged(s.Blocks()[resumeFrom..], resumeFrom)
      invariant ps == OfBlocks(s, t, resumeFrom, resumeFrom + n)
    {
      BlockRead(s, resumeFrom, blocks, n);
      var more := SendBlock(s, blocks[n], t);
      ps := ps + more;
    }
    SendingInOrder(s, t, resumeFrom);
  }

  // ---- an attempt that is cut off -----------------------------------------------------------------

  /** The arrivals of an attempt that was cut off inside shard (b0, i0): of every other shard
      all pieces arrived, or none. */
  ghost predicate CutAt(s: Stream, ps: seq<Packet>, b0: nat, i0: nat) {
    forall b: nat, i: nat | b < |s.Blocks()| && i < s.codec.Total() && (b, i) != (b0, i0) ::
      Whole(s, ps, b, i) || NoneOf(ps, b, i)
  }

  predicate NoneOf(ps: seq<Packet>, b: nat, i: nat) { forall p | p in ps :: !(p.block == b && p.shard == i) }

  /** Shards that come before the cut arrived whole. */
  lemma WholeBefore(s: Stream, ps: seq<Packet>, n: nat, b: nat, i: nat)
    requires Ascending(ps) && n < |ps| && b < |s.Blocks()| && Whole(s, ps, b, i)
    requires b < ps[n].block || (b == ps[n].block && i < ps[n].shard)
    ensures Whole(s, ps[..n], b, i)
  {
    assert forall l :: n < l < |ps| ==> Before(ps[n], ps[l]);
    forall j: nat | j < s.Count(b, i)
      ensures HasPacket(ps[..n], b, i, j)
    {
      assert HasPacket(ps, b, i, j);
      var p :| p in ps && p.block == b && p.shard == i && p.subIndex == j;
      var l :| 0 <= l < |ps| && ps[l] == p;
      assert ps[..n][l] == p;
    }
  }

  /** Wherever an attempt is cut off, it is cut inside at most one shard. */
  lemma {:induction false} PrefixIsCut(s: Stream, t: nat, from: nat, ps: seq<Packet>, n: nat) returns (b0: nat, i0: nat)
    requires InOrder(s, t, from, |s.Blocks()|, ps) && n <= |ps|
    ensures CutAt(s, ps[..n], b0, i0)
  {
    if n == |ps| {
      assert ps[..n] == ps;
      b0, i0 := 0, 0;
    } else {
      b0, i0 := ps[n].block, ps[n].shard;
      forall b: nat, i: nat | b < |s.Blocks()| && i < s.codec.Total() && (b, i) != (b0, i0)
        ensures Whole(s, ps[..n], b, i) || NoneOf(ps[..n], b, i)
      {
        if b >= from && (b < b0 || (b == b0 && i < i0)) {
          WholeBefore(s, ps, n, b, i);
        } else {
          forall p | p in ps[..n]
            ensures !(p.block == b && p.shard == i)
          {
            var l :| 0 <= l < n && ps[l] == p;
            assert Before(ps[l], ps[n]);
          }
        }
      }
    }
  }
}
