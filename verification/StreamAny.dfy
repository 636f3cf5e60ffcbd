/** What the assembler keeps whatever arrives, from whomever (internal/transfer/streaming.go:387-520
    and internal/transfer/transfer.go:1956-1987): nothing here supposes that packets are genuine. */
module StreamAny {
  import opened Basics
  import opened StreamModel

  /** The sink was closed at most once, and exactly when the stream is done; a finished block holds
      its data and no pieces, and came from the right number of shards; nothing that could be
      finished or written is left waiting. */
  ghost predicate Tidy(c: Codec, a: Assembler) {
    && a.closes == (if a.done then 1 else 0)
    && (forall b | b in a.blocks :: TidyBlock(c, a.blocks[b]))
    && (!a.done && a.nextFlush in a.blocks ==> !a.blocks[a.nextFlush].ready)
  }

  ghost predicate TidyBlock(c: Codec, blk: Block) {
    && Settled(c, blk) == blk
    && (blk.ready ==> blk.received == {} && blk.chunks == map[] && blk.subParts == map[] && blk.total == c.Total())
  }

  lemma SettledIsTidy(c: Codec, blk: Block)
    requires c.k > 0 && !blk.ready
    ensures TidyBlock(c, Settled(c, blk))
  {
  }

  /** Writing what is ready only appends, in order, and stops after the final block. */
  lemma {:induction false} FlushAppends(a: Assembler)
    requires !a.done
    ensures var f := Flushed(a);
      && a.sink <= f.sink && a.nextFlush <= f.nextFlush && f.closes == a.closes + (if f.done then 1 else 0)
      && (forall b | b in f.blocks :: b in a.blocks && f.blocks[b] == a.blocks[b])
      && (forall b | b in a.blocks && b !in f.blocks :: a.nextFlush <= b < f.nextFlush && a.blocks[b].ready)
      && (!f.done && f.nextFlush in f.blocks ==> !f.blocks[f.nextFlush].ready)
    decreases |a.blocks|
  {
    if a.nextFlush in a.blocks && a.blocks[a.nextFlush].ready {
      var b := a.blocks[a.nextFlush];
      Shrinks(a.blocks, a.nextFlush);
      if !b.final {
        FlushAppends(a.(sink := a.sink + b.data, blocks := a.blocks - {a.nextFlush}, nextFlush := a.nextFlush + 1));
      }
    }
  }

  lemma AbsorbedKeeps(blk: Block, p: Packet)
    ensures var next := Absorbed(blk, p);
      next.total == blk.total && next.blockLen == blk.blockLen && next.final == blk.final && next.ready == blk.ready
  {
  }

  /** A block keeps the labels it was opened with, and once finished it does not change. */
  ghost predicate Continues(blk: Block, next: Block) {
    && next.total == blk.total && next.blockLen == blk.blockLen && next.final == blk.final
    && (blk.ready ==> next == blk)
  }

  /** Any packet at all: the sink only grows, what is done stays done, and every block still held
      continues; a block leaves only finished, and in its turn. */
  lemma {:induction false} AnyPacket(c: Codec, a: Assembler, p: Packet)
    requires c.k > 0 && Tidy(c, a)
    ensures var a' := Added(c, a, p);
      && Tidy(c, a') && a.sink <= a'.sink && a.nextFlush <= a'.nextFlush && (a.done ==> a' == a)
      && (forall b | b in a.blocks ::
            (b in a'.blocks && Continues(a.blocks[b], a'.blocks[b])) || a.nextFlush <= b < a'.nextFlush)
      && (forall b | b in a.blocks && b !in a'.blocks :: b == p.block || a.blocks[b].ready)
  {
    if !a.done && !BlockFor(a, p).ready {
      var blk := Absorbed(BlockFor(a, p), p);
      AbsorbedKeeps(BlockFor(a, p), p);
      SettledIsTidy(c, blk);
      FlushAppends(a.(blocks := a.blocks[p.block := Settled(c, blk)]));
    }
  }

  lemma {:induction false} AnyPackets(c: Codec, ps: seq<Packet>)
    requires c.k > 0
    ensures Tidy(c, AddedAll(c, Empty(), ps))
  {
    if ps != [] {
      AnyPackets(c, ps[..|ps| - 1]);
      AnyPacket(c, AddedAll(c, Empty(), ps[..|ps| - 1]), ps[|ps| - 1]);
    }
  }

  /** A piece numbered past the count it names itself is dropped: at most an empty block is opened
      for it. */
  lemma {:induction false} MalformedDropped(c: Codec, a: Assembler, p: Packet)
    requires c.k > 0 && Tidy(c, a) && p.subTotal > 1 && p.subIndex >= p.subTotal
    ensures var a' := Added(c, a, p);
      && a'.sink == a.sink && a'.nextFlush == a.nextFlush && a'.done == a.done && a'.closes == a.closes
      && (forall b | b in a.blocks :: b in a'.blocks && a'.blocks[b] == a.blocks[b])
      && (forall b | b in a'.blocks && b !in a.blocks :: a'.blocks[b] == NewBlock(p))
  {
    if !a.done && !BlockFor(a, p).ready {
      var blk := BlockFor(a, p);
      assert Absorbed(blk, p) == blk && Settled(c, blk) == blk;
    }
  }

  /** A block that was opened by a packet naming another number of shards is never written, nor is
      anything after it. */
  lemma {:induction false} WrongTotalNeverWritten(c: Codec, a: Assembler, b: nat, ps: seq<Packet>)
    requires c.k > 0 && Tidy(c, a) && a.nextFlush <= b && b in a.blocks && a.blocks[b].total != c.Total()
    ensures var a' := AddedAll(c, a, ps);
      Tidy(c, a') && a'.nextFlush <= b && b in a'.blocks && a'.blocks[b].total != c.Total()
  {
    if ps != [] {
      WrongTotalNeverWritten(c, a, b, ps[..|ps| - 1]);
      WrongTotalStays(c, AddedAll(c, a, ps[..|ps| - 1]), b, ps[|ps| - 1]);
    }
  }

  lemma WrongTotalStays(c: Codec, a: Assembler, b: nat, p: Packet)
    requires c.k > 0 && Tidy(c, a) && a.nextFlush <= b && b in a.blocks && a.blocks[b].total != c.Total()
    ensures var a' := Added(c, a, p);
      Tidy(c, a') && a'.nextFlush <= b && b in a'.blocks && a'.blocks[b].total != c.Total()
  {
    AnyPacket(c, a, p);
    if !a.done && !BlockFor(a, p).ready {
      var blk := Absorbed(BlockFor(a, p), p);
      AbsorbedKeeps(BlockFor(a, p), p);
      SettledIsTidy(c, blk);
      var mid := a.(blocks := a.blocks[p.block := Settled(c, blk)]);
      assert mid.blocks[b].total != c.Total() && !mid.blocks[b].ready;
      FlushAppends(mid);
      StopsBefore(mid, b);
    }
  }

  lemma {:induction false} StopsBefore(a: Assembler, b: nat)
    requires a.nextFlush <= b && b in a.blocks && !a.blocks[b].ready
    ensures Flushed(a).nextFlush <= b && b in Flushed(a).blocks
    decreases |a.blocks|
  {
    if a.nextFlush in a.blocks && a.blocks[a.nextFlush].ready {
      Shrinks(a.blocks, a.nextFlush);
      if !a.blocks[a.nextFlush].final {
        StopsBefore(a.(sink := a.sink + a.blocks[a.nextFlush].data, blocks := a.blocks - {a.nextFlush},
                       nextFlush := a.nextFlush + 1), b);
      }
    }
  }
}
