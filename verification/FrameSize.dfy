/** Sizing link chunks to a transport's MTU (internal/link/message.go:14-51, 73-108;
    internal/link/link.go:51-55, 321-362): the whole on-wire frame, counting the message header,
    the AEAD tag, base64, the JSON rendering and the packet's own fields. */
module FrameSize {
  import opened WireFormat
  import opened PacketCodec

  const MAX_MESSAGE_CHUNK: nat := 32 * 1024
  const MIN_MESSAGE_CHUNK: nat := 64
  const LINK_FRAME_OVERHEAD: nat := 300
  const MSG_HEADER_LEN: nat := 12
  const AEAD_TAG_LEN: nat := 16
  const NONCE_LEN: nat := 12

  /** Division as Go does it, towards zero. */
  function Quotient(a: int, b: nat): int
    requires b > 0
  {
    if a >= 0 then a / b else -(-a / b)
  }

  /** The largest chunk from the floor to the ceiling whose share of the MTU fits; an unknown MTU
      gets the ceiling. */
  function MaxChunkForMtu(mtu: int): (chunk: nat)
    ensures MIN_MESSAGE_CHUNK <= chunk <= MAX_MESSAGE_CHUNK
    ensures mtu <= 0 ==> chunk == MAX_MESSAGE_CHUNK
    ensures mtu > 0 && chunk > MIN_MESSAGE_CHUNK ==> 4 * chunk <= 3 * (mtu - LINK_FRAME_OVERHEAD)
    ensures mtu > 0 && chunk < MAX_MESSAGE_CHUNK ==> 4 * (chunk + 1) > 3 * (mtu - LINK_FRAME_OVERHEAD)
  {
    if mtu <= 0 then MAX_MESSAGE_CHUNK
    else
      var budget := Quotient((mtu - LINK_FRAME_OVERHEAD) * 3, 4);
      if budget < MIN_MESSAGE_CHUNK then MIN_MESSAGE_CHUNK
      else if budget > MAX_MESSAGE_CHUNK then MAX_MESSAGE_CHUNK
      else budget
  }

  // ---- the rendering of a link data payload -----------------------------------------------------

  /** Decimal digits of a byte. */
  function Digits(b: Byte): nat { if b < 10 then 1 else if b < 100 then 2 else 3 }

  /** The length of an array of numbers without its brackets. */
  function NumbersLen(bs: Bytes): nat {
    if bs == [] then 0 else NumbersLen(bs[..|bs| - 1]) + (if |bs| > 1 then 1 else 0) + Digits(bs[|bs| - 1])
  }

  /** The length of n bytes in padded base64 (section 4 of RFC 4648). */
  function Base64Len(n: nat): nat { (n + 2) / 3 * 4 }

  function JsonLen(linkId: Bytes, nonceLen: nat, cipherLen: nat): nat {
    |"{\"LinkID\":["| + NumbersLen(linkId) + |"],\"Nonce\":\""| + Base64Len(nonceLen) + |"\",\"Cipher\":\""| +
      Base64Len(cipherLen) + |"\"}"|
  }

  /** The payload length of a frame that carries n bytes of a message. */
  function DataPayloadLen(linkId: Bytes, n: nat): nat { JsonLen(linkId, NONCE_LEN, MSG_HEADER_LEN + n + AEAD_TAG_LEN) }

  // ---- the packet around it ------------------------------------------------------------------------

  function Size(i: Item): nat {
    match i
    case Num(w, _) => w
    case Raw(b) => |b|
    case Blob(b) => 4 + |b|
  }

  function SizeTo(items: seq<Item>, n: nat): nat
    requires n <= |items|
  {
    if n == 0 then 0 else SizeTo(items, n - 1) + Size(items[n - 1])
  }

  lemma {:induction false} PutAllLen(items: seq<Item>, n: nat)
    requires n <= |items|
    ensures |PutAll(items[..n])| == SizeTo(items, n)
  {
    if n > 0 {
      PutAllLen(items, n - 1);
      assert items[..n] == items[..n - 1] + [items[n - 1]];
      PutAllPlus(items[..n - 1], [items[n - 1]]);
      assert [items[n - 1]][1..] == [];
    }
  }

  lemma PutAllSize(items: seq<Item>)
    ensures |PutAll(items)| == SizeTo(items, |items|)
  {
    PutAllLen(items, |items|);
    assert items[..|items|] == items;
  }

  lemma FirstFour(f: seq<Item>)
    requires |f| >= 4
    ensures SizeTo(f, 4) == Size(f[0]) + Size(f[1]) + Size(f[2]) + Size(f[3])
  {
    OneMoreSize(f, 0);
    OneMoreSize(f, 1);
    OneMoreSize(f, 2);
    OneMoreSize(f, 3);
  }

  lemma OneMoreSize(f: seq<Item>, n: nat)
    requires n < |f|
    ensures SizeTo(f, n + 1) == SizeTo(f, n) + Size(f[n])
  {
  }

  /** The size of item i, or nothing past the end. */
  function SizeAt(f: seq<Item>, i: nat): nat { if i < |f| then Size(f[i]) else 0 }

  function Least(a: nat, b: nat): nat { if a < b then a else b }

  lemma UpTo(f: seq<Item>, n: nat)
    ensures SizeTo(f, Least(n + 1, |f|)) == SizeTo(f, Least(n, |f|)) + SizeAt(f, n)
  {
    if n < |f| { OneMoreSize(f, n); }
  }

  lemma GroupSize(f: seq<Item>)
    requires 4 <= |f| <= 7
    ensures |PutAll(f)| ==
            Size(f[0]) + Size(f[1]) + Size(f[2]) + Size(f[3]) + SizeAt(f, 4) + SizeAt(f, 5) + SizeAt(f, 6)
  {
    PutAllSize(f);
    FirstFour(f);
    UpTo(f, 4);
    UpTo(f, 5);
    UpTo(f, 6);
    assert Least(4, |f|) == 4 && Least(7, |f|) == |f|;
  }

  /** The size of a packet: 124 fixed bytes and its variable fields. */
  lemma {:induction false} PacketSize(p: Packet)
    requires |p.id| == 32
    ensures |Marshalled(p)| == 124 + |p.sourceNode| + |p.destGroup| + |p.destNode| + |p.payload| + |p.signerKey|
                               + |p.signature| + |p.replyBlock| + |p.pad|
  {
    GroupSize(Ident(p));
    GroupSize(Chunks(p));
    GroupSize(BlockPart(p));
    GroupSize(Coding(p));
    GroupSize(Bodies(p));
    PutAllPlus(Ident(p), Chunks(p));
    PutAllPlus(Ident(p) + Chunks(p), BlockPart(p));
    PutAllPlus(Ident(p) + Chunks(p) + BlockPart(p), Coding(p));
    PutAllPlus(Ident(p) + Chunks(p) + BlockPart(p) + Coding(p), Bodies(p));
  }

  /** p is a link data frame that carries n bytes of a message. */
  ghost predicate IsLinkFrame(p: Packet, linkId: Bytes, n: nat) {
    && |p.id| == 32 && |linkId| == 16 && |p.payload| == DataPayloadLen(linkId, n)
    && |p.destGroup| == 3 && p.sourceNode == [] && p.destNode == [] && p.signerKey == [] && p.signature == []
    && p.replyBlock == [] && p.pad == []
  }

  lemma {:induction false} NumbersBound(bs: Bytes)
    ensures NumbersLen(bs) <= 4 * |bs| && (bs != [] ==> NumbersLen(bs) <= 4 * |bs| - 1)
  {
    if bs != [] { NumbersBound(bs[..|bs| - 1]); }
  }

  lemma {:induction false} NumbersLongest(bs: Bytes)
    requires forall i :: 0 <= i < |bs| ==> bs[i] >= 100
    ensures bs != [] ==> NumbersLen(bs) == 4 * |bs| - 1
  {
    if bs != [] {
      NumbersLongest(bs[..|bs| - 1]);
      assert |bs| == 1 ==> bs[..0] == [];
    }
  }

  /** A frame with n message bytes takes at most 242 bytes and the base64 of its ciphertext, and
      exactly that when all bytes of the link id have three digits. */
  lemma {:induction false} LinkFrameSize(p: Packet, linkId: Bytes, n: nat)
    requires IsLinkFrame(p, linkId, n)
    ensures |Marshalled(p)| <= 242 + Base64Len(n + 28)
    ensures (forall i :: 0 <= i < 16 ==> linkId[i] >= 100) ==> |Marshalled(p)| == 242 + Base64Len(n + 28)
  {
    PacketSize(p);
    NumbersBound(linkId);
    if forall i :: 0 <= i < 16 ==> linkId[i] >= 100 { NumbersLongest(linkId); }
  }

  /** For every MTU of at least 366 bytes, every frame of a message chunked for it fits. */
  lemma {:induction false} FramesFit(mtu: int, p: Packet, linkId: Bytes, n: nat)
    requires mtu >= 366 && n <= MaxChunkForMtu(mtu) && IsLinkFrame(p, linkId, n)
    ensures |Marshalled(p)| <= mtu
  {
    LinkFrameSize(p, linkId, n);
    assert (n + 30) / 3 <= (MaxChunkForMtu(mtu) + 30) / 3;
  }

  /** The bound is exact: below it the floor on the chunk size wins, and a full chunk on a link
      whose id bytes all have three digits does not fit. */
  lemma {:induction false} FramesOverflowBelow(mtu: int, p: Packet, linkId: Bytes)
    requires 0 < mtu < 366 && IsLinkFrame(p, linkId, MaxChunkForMtu(mtu))
    requires forall i :: 0 <= i < 16 ==> linkId[i] >= 100
    ensures |Marshalled(p)| == 366 > mtu
  {
    assert MaxChunkForMtu(mtu) == MIN_MESSAGE_CHUNK;
    LinkFrameSize(p, linkId, MIN_MESSAGE_CHUNK);
  }
}
