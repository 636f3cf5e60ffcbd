/** Where each field lies, byte by byte (internal/protocol/packet.go:30-60, 535-629 and
    internal/protocol/announce.go:49-95). A round trip does not notice two fields of one width that
    change places on both sides, nor another byte order; peers and verifiers do. */
module WireLayout {
  import opened WireFormat
  import opened PacketCodec
  import opened FrameSize
  import Ann = AnnounceEncoding

  // ---- the byte order ----------------------------------------------------------------------------

  lemma {:induction false} TwoBytes(n: nat)
    ensures BigEndian(n, 2) == [n / 0x100 % 0x100, n % 0x100]
  {
    assert BigEndian(n / 0x100, 1) == BigEndian(n / 0x100 / 0x100, 0) + [n / 0x100 % 0x100];
  }

  lemma {:induction false} FourBytes(n: nat)
    ensures BigEndian(n, 4) == [n / 0x100_0000 % 0x100, n / 0x1_0000 % 0x100, n / 0x100 % 0x100, n % 0x100]
  {
    TwoBytes(n / 0x1_0000);
    assert n / 0x100 / 0x100 == n / 0x1_0000 && n / 0x1_0000 / 0x100 == n / 0x100_0000;
    assert BigEndian(n, 4) == BigEndian(n / 0x100, 3) + [n % 0x100];
    assert BigEndian(n / 0x100, 3) == BigEndian(n / 0x1_0000, 2) + [n / 0x100 % 0x100];
  }

  lemma {:induction false} EightBytes(n: nat)
    ensures BigEndian(n, 8) == BigEndian(n / 0x1_0000_0000, 4) + BigEndian(n, 4)
  {
    FourBytes(n);
    var a, b, c, d := n / 0x100, n / 0x1_0000, n / 0x100_0000, n / 0x1_0000_0000;
    assert a / 0x100 == b && b / 0x100 == c && c / 0x100 == d;
    assert BigEndian(n, 8) == BigEndian(a, 7) + [n % 0x100];
    assert BigEndian(a, 7) == BigEndian(b, 6) + [a % 0x100];
    assert BigEndian(b, 6) == BigEndian(c, 5) + [b % 0x100];
    assert BigEndian(c, 5) == BigEndian(d, 4) + [c % 0x100];
  }

  // ---- positions -----------------------------------------------------------------------------------

  /** The bytes b lie in s from position off on. */
  predicate At(s: Bytes, off: nat, b: Bytes) { off + |b| <= |s| && s[off..off + |b|] == b }

  /** A field: where it starts, counted from its group, and its bytes. */
  datatype Field = Field(off: nat, bytes: Bytes)

  predicate AllAt(s: Bytes, base: nat, l: seq<Field>) {
    forall k :: 0 <= k < |l| ==> At(s, base + l[k].off, l[k].bytes)
  }

  /** The 4-byte length of b, and then b. */
  function Long(b: Bytes): Bytes { BigEndian(|b|, 4) + b }

  function Flag(b: bool): Bytes { [if b then 1 else 0] }

  lemma FlagBytes(b: bool)
    ensures Put(Bool(b)) == Flag(b)
  {
    assert BigEndian(0, 0) == [];
  }

  /** Field k lies after the fields before it. */
  lemma FieldAt(f: seq<Item>, k: nat)
    requires k < |f|
    ensures At(PutAll(f), SizeTo(f, k), Put(f[k]))
  {
    PutAllAround(f, k);
    PutAllLen(f, k);
    Between(PutAll(f[..k]), Put(f[k]), PutAll(f[k + 1..]));
  }

  lemma PutAllAround(f: seq<Item>, k: nat)
    requires k < |f|
    ensures PutAll(f) == PutAll(f[..k]) + (Put(f[k]) + PutAll(f[k + 1..]))
  {
    assert f == f[..k] + f[k..] && f[k..] == [f[k]] + f[k + 1..];
    PutAllPlus(f[..k], f[k..]);
    PutAllPlus([f[k]], f[k + 1..]);
    Ann.PutOne(f[k]);
  }

  lemma Between(a: Bytes, x: Bytes, b: Bytes)
    ensures At(a + (x + b), |a|, x)
  {
  }

  /** The fields of the items f, one after the other. */
  ghost predicate Consecutive(f: seq<Item>, l: seq<Field>) { SameBytes(f, l) && Tight(l) }

  predicate SameBytes(f: seq<Item>, l: seq<Field>) {
    |l| == |f| && forall k :: 0 <= k < |f| ==> l[k].bytes == Put(f[k])
  }

  predicate Tight(l: seq<Field>) {
    (|l| > 0 ==> l[0].off == 0) && forall k :: 0 < k < |l| ==> l[k].off == l[k - 1].off + |l[k - 1].bytes|
  }

  lemma {:induction false} StartsAt(f: seq<Item>, l: seq<Field>, k: nat)
    requires Consecutive(f, l) && k < |f|
    ensures SizeTo(f, k) == l[k].off
  {
    if k > 0 { StartsAt(f, l, k - 1); }
  }

  lemma GroupLaid(f: seq<Item>, l: seq<Field>)
    requires Consecutive(f, l)
    ensures AllAt(PutAll(f), 0, l)
  {
    forall k | 0 <= k < |l|
      ensures At(PutAll(f), l[k].off, l[k].bytes)
    {
      FieldAt(f, k);
      StartsAt(f, l, k);
    }
  }

  /** What lies in a part lies that much further on in the whole. */
  lemma Shifted(a: Bytes, s: Bytes, b: Bytes, all: Bytes, l: seq<Field>)
    requires all == a + (s + b) && AllAt(s, 0, l)
    ensures AllAt(all, |a|, l)
  {
    forall k | 0 <= k < |l|
      ensures At(all, |a| + l[k].off, l[k].bytes)
    {
      ShiftedOne(a, s, b, l[k].off, l[k].bytes);
    }
  }

  lemma ShiftedOne(a: Bytes, s: Bytes, b: Bytes, off: nat, x: Bytes)
    requires At(s, off, x)
    ensures At(a + (s + b), |a| + off, x)
  {
    assert (a + (s + b))[|a| + off..|a| + off + |x|] == s[off..off + |x|];
  }

  // ---- the packet -------------------------------------------------------------------------------------

  function IdentLayout(p: Packet): seq<Field> {
    var src, grp := |p.sourceNode|, |p.destGroup|;
    [Field(0, p.id), Field(32, BigEndian(p.kind, 1)), Field(33, BigEndian(ToUnsigned(p.time), 8)),
     Field(41, Long(p.sourceNode)), Field(45 + src, Long(p.destGroup)), Field(49 + src + grp, Long(p.destNode))]
  }

  function ChunksLayout(p: Packet): seq<Field> {
    [Field(0, BigEndian(p.totalChunks, 4)), Field(4, BigEndian(p.chunkNumber, 4)), Field(8, BigEndian(p.subIndex, 4)),
     Field(12, BigEndian(p.subTotal, 4))]
  }

  function BlockLayout(p: Packet): seq<Field> {
    [Field(0, Flag(p.streaming)), Field(1, BigEndian(p.blockIndex, 4)), Field(5, BigEndian(p.blockLen, 4)),
     Field(9, Flag(p.final)), Field(10, Flag(p.hybridSealed)), Field(11, Flag(p.pq)), Field(12, Flag(p.resumable))]
  }

  function CodingLayout(p: Packet): seq<Field> {
    [Field(0, BigEndian(p.dataShards, 4)), Field(4, BigEndian(p.parityShards, 4)),
     Field(8, BigEndian(p.originalLen, 8)),
     Field(16, Flag(p.variable)), Field(17, Flag(p.decoy)), Field(18, BigEndian(p.payloadSize, 4))]
  }

  function BodiesLayout(p: Packet): seq<Field> {
    var a := 4 + |p.payload|;
    var b := a + 4 + |p.signerKey|;
    var c := b + 4 + |p.signature|;
    var d := c + 4 + |p.replyBlock|;
    [Field(0, Long(p.payload)), Field(a, Long(p.signerKey)), Field(b, Long(p.signature)),
     Field(c, Long(p.replyBlock)), Field(d, Long(p.pad))]
  }

  lemma IdentBytes(p: Packet)
    ensures SameBytes(Ident(p), IdentLayout(p))
  {
  }

  lemma IdentTight(p: Packet)
    requires |p.id| == 32
    ensures Tight(IdentLayout(p))
  {
  }

  lemma IdentLaid(p: Packet) returns (g: Bytes)
    requires |p.id| == 32
    ensures g == PutAll(Ident(p)) && AllAt(g, 0, IdentLayout(p))
    ensures |g| == 53 + |p.sourceNode| + |p.destGroup| + |p.destNode|
  {
    var f, l := Ident(p), IdentLayout(p);
    g := PutAll(f);
    IdentBytes(p);
    IdentTight(p);
    GroupLaid(f, l);
    LastField(f, l);
  }

  lemma ChunksLaid(p: Packet) returns (g: Bytes)
    ensures g == PutAll(Chunks(p)) && AllAt(g, 0, ChunksLayout(p)) && |g| == 16
  {
    g := PutAll(Chunks(p));
    GroupLaid(Chunks(p), ChunksLayout(p));
    LastField(Chunks(p), ChunksLayout(p));
  }

  lemma BlockBytes(p: Packet)
    ensures SameBytes(BlockPart(p), BlockLayout(p))
  {
    FlagBytes(p.streaming);
    FlagBytes(p.final);
    FlagBytes(p.hybridSealed);
    FlagBytes(p.pq);
    FlagBytes(p.resumable);
  }

  lemma BlockTight(p: Packet)
    ensures Tight(BlockLayout(p))
  {
  }

  lemma BlockLaid(p: Packet) returns (g: Bytes)
    ensures g == PutAll(BlockPart(p)) && AllAt(g, 0, BlockLayout(p)) && |g| == 13
  {
    g := PutAll(BlockPart(p));
    BlockBytes(p);
    BlockTight(p);
    GroupLaid(BlockPart(p), BlockLayout(p));
    LastField(BlockPart(p), BlockLayout(p));
  }

  lemma CodingBytes(p: Packet)
    ensures SameBytes(Coding(p), CodingLayout(p))
  {
    FlagBytes(p.variable);
    FlagBytes(p.decoy);
  }

  lemma CodingTight(p: Packet)
    ensures Tight(CodingLayout(p))
  {
  }

  lemma CodingLaid(p: Packet) returns (g: Bytes)
    ensures g == PutAll(Coding(p)) && AllAt(g, 0, CodingLayout(p)) && |g| == 22
  {
    var f, l := Coding(p), CodingLayout(p);
    g := PutAll(f);
    CodingBytes(p);
    CodingTight(p);
    GroupLaid(f, l);
    LastField(f, l);
  }

  lemma BodiesLaid(p: Packet) returns (g: Bytes)
    ensures g == PutAll(Bodies(p)) && AllAt(g, 0, BodiesLayout(p))
  {
    g := PutAll(Bodies(p));
    assert SameBytes(Bodies(p), BodiesLayout(p));
    GroupLaid(Bodies(p), BodiesLayout(p));
  }

  /** A packet's bytes: the fixed groups start after the 53 bytes and the names before them. */
  lemma {:induction false} PacketLayout(p: Packet, a: nat)
    requires |p.id| == 32 && a == 53 + |p.sourceNode| + |p.destGroup| + |p.destNode|
    ensures Laid(Marshalled(p), IdentLayout(p), a, ChunksLayout(p), a + 16, BlockLayout(p), a + 29, CodingLayout(p),
                 a + 51, BodiesLayout(p))
  {
    var g0 := IdentLaid(p);
    var g1 := ChunksLaid(p);
    var g2 := BlockLaid(p);
    var g3 := CodingLaid(p);
    var g4 := BodiesLaid(p);
    MarshalledGroups(p, g0, g1, g2, g3, g4);
    var l0, l1, l2, l3, l4 := IdentLayout(p), ChunksLayout(p), BlockLayout(p), CodingLayout(p), BodiesLayout(p);
    BodiesLast(g0, l0, g1, l1, g2, l2, g3, l3, g4, l4, Marshalled(p), a);
  }

  lemma BodiesLast(g0: Bytes, l0: seq<Field>, g1: Bytes, l1: seq<Field>, g2: Bytes, l2: seq<Field>, g3: Bytes,
                   l3: seq<Field>, g4: Bytes, l4: seq<Field>, m: Bytes, a: nat)
    requires m == g0 + g1 + g2 + g3 + g4 && AllAt(g0, 0, l0) && AllAt(g1, 0, l1) && AllAt(g2, 0, l2)
    requires AllAt(g3, 0, l3) && AllAt(g4, 0, l4) && |g0| == a && |g1| == 16 && |g2| == 13 && |g3| == 22
    ensures Laid(m, l0, a, l1, a + 16, l2, a + 29, l3, a + 51, l4)
  {
    FiveLaid(g0, l0, g1, l1, g2, l2, g3, l3, g4, l4, m, a, a + 16, a + 29, a + 51);
  }

  lemma MarshalledGroups(p: Packet, g0: Bytes, g1: Bytes, g2: Bytes, g3: Bytes, g4: Bytes)
    requires g0 == PutAll(Ident(p)) && g1 == PutAll(Chunks(p)) && g2 == PutAll(BlockPart(p))
    requires g3 == PutAll(Coding(p)) && g4 == PutAll(Bodies(p))
    ensures Marshalled(p) == g0 + g1 + g2 + g3 + g4
  {
    PutAllPlus(Ident(p), Chunks(p));
    PutAllPlus(Ident(p) + Chunks(p), BlockPart(p));
    PutAllPlus(Ident(p) + Chunks(p) + BlockPart(p), Coding(p));
    PutAllPlus(Ident(p) + Chunks(p) + BlockPart(p) + Coding(p), Bodies(p));
  }

  /** The layouts of five parts, in the whole. */
  ghost predicate Laid(m: Bytes, l0: seq<Field>, o1: nat, l1: seq<Field>, o2: nat, l2: seq<Field>, o3: nat,
                       l3: seq<Field>, o4: nat, l4: seq<Field>)
  {
    AllAt(m, 0, l0) && AllAt(m, o1, l1) && AllAt(m, o2, l2) && AllAt(m, o3, l3) && AllAt(m, o4, l4)
  }

  lemma FiveLaid(g0: Bytes, l0: seq<Field>, g1: Bytes, l1: seq<Field>, g2: Bytes, l2: seq<Field>, g3: Bytes,
                 l3: seq<Field>, g4: Bytes, l4: seq<Field>, m: Bytes, o1: nat, o2: nat, o3: nat, o4: nat)
    requires m == g0 + g1 + g2 + g3 + g4 && AllAt(g0, 0, l0) && AllAt(g1, 0, l1) && AllAt(g2, 0, l2)
    requires AllAt(g3, 0, l3) && AllAt(g4, 0, l4)
    requires o1 == |g0| && o2 == o1 + |g1| && o3 == o2 + |g2| && o4 == o3 + |g3|
    ensures Laid(m, l0, o1, l1, o2, l2, o3, l3, o4, l4) && |m| == o4 + |g4| && m[o4..] == g4
  {
    var a, b, c := g0 + g1, g0 + g1 + g2, g0 + g1 + g2 + g3;
    var r3, r2, r1 := g3 + g4, g2 + (g3 + g4), g1 + (g2 + (g3 + g4));
    Ann.Assoc(b, g3, g4);
    Ann.Assoc(a, g2, r3);
    Ann.Assoc(g0, g1, r2);
    Ends(c, g4, m);
    Ann.EmptyPlus(g0 + r1);
    Shifted([], g0, r1, m, l0);
    Shifted(g0, g1, r2, m, l1);
    Shifted(a, g2, r3, m, l2);
    Shifted(b, g3, g4, m, l3);
    Shifted(c, g4, [], m, l4);
  }

  lemma Ends(a: Bytes, b: Bytes, m: Bytes)
    requires m == a + b
    ensures m == a + (b + []) && m[|a|..] == b
  {
    assert b + [] == b;
  }

  // ---- the signed form of a packet ----------------------------------------------------------------------

  function SignedIdentLayout(p: Packet): seq<Field> {
    var src, grp := |p.sourceNode|, |p.destGroup|;
    [Field(0, BigEndian(p.kind, 1)), Field(1, p.id), Field(33, Long(p.sourceNode)), Field(37 + src, Long(p.destGroup)),
     Field(41 + src + grp, Long(p.destNode))]
  }

  function SignedSizesLayout(p: Packet): seq<Field> {
    [Field(0, BigEndian(p.chunkNumber, 4)), Field(4, BigEndian(p.totalChunks, 4)),
     Field(8, BigEndian(p.payloadSize, 4)),
     Field(12, BigEndian(p.dataShards, 4)), Field(16, BigEndian(p.parityShards, 4)),
     Field(20, BigEndian(p.originalLen, 8)), Field(28, BigEndian(p.subIndex, 4)), Field(32, BigEndian(p.subTotal, 4))]
  }

  function SignedBlockLayout(p: Packet): seq<Field> { BlockLayout(p) + [Field(13, Flag(p.variable))] }

  function SignedKeysLayout(p: Packet): seq<Field> {
    var key, reply := |p.signerKey|, |p.replyBlock|;
    [Field(0, Long(p.signerKey)), Field(4 + key, Long(p.replyBlock)), Field(8 + key + reply, Flag(p.decoy))]
  }

  lemma SignedIdentBytes(p: Packet)
    ensures SameBytes(SignedIdent(p), SignedIdentLayout(p))
  {
  }

  lemma SignedIdentTight(p: Packet)
    requires |p.id| == 32
    ensures Tight(SignedIdentLayout(p))
  {
  }

  lemma SignedIdentLaid(p: Packet) returns (g: Bytes)
    requires |p.id| == 32
    ensures g == PutAll(SignedIdent(p)) && AllAt(g, 0, SignedIdentLayout(p))
    ensures |g| == 45 + |p.sourceNode| + |p.destGroup| + |p.destNode|
  {
    var f, l := SignedIdent(p), SignedIdentLayout(p);
    g := PutAll(f);
    SignedIdentBytes(p);
    SignedIdentTight(p);
    GroupLaid(f, l);
    LastField(f, l);
  }

  lemma SizesBytes(p: Packet)
    ensures SameBytes(SignedSizes(p), SignedSizesLayout(p))
  {
  }

  lemma SizesTight(p: Packet)
    ensures Tight(SignedSizesLayout(p))
  {
  }

  lemma SignedSizesLaid(p: Packet) returns (g: Bytes)
    ensures g == PutAll(SignedSizes(p)) && AllAt(g, 0, SignedSizesLayout(p)) && |g| == 36
  {
    g := PutAll(SignedSizes(p));
    SizesBytes(p);
    SizesTight(p);
    GroupLaid(SignedSizes(p), SignedSizesLayout(p));
    LastField(SignedSizes(p), SignedSizesLayout(p));
  }

  /** The last field ends the group. */
  lemma LastField(f: seq<Item>, l: seq<Field>)
    requires Consecutive(f, l) && f != []
    ensures |PutAll(f)| == l[|l| - 1].off + |l[|l| - 1].bytes|
  {
    var n := |f| - 1;
    PutAllAround(f, n);
    PutAllLen(f, n);
    StartsAt(f, l, n);
    assert f[n + 1..] == [];
  }

  lemma SignedBlockConsecutive(p: Packet)
    ensures Consecutive(SignedBlock(p), SignedBlockLayout(p))
  {
    BlockBytes(p);
    BlockTight(p);
    FlagBytes(p.variable);
    OneMoreField(BlockPart(p), BlockLayout(p), Bool(p.variable), Field(13, Flag(p.variable)));
    assert SignedBlock(p) == BlockPart(p) + [Bool(p.variable)];
  }

  lemma SignedBlockLaid(p: Packet) returns (g: Bytes)
    ensures g == PutAll(SignedBlock(p)) && AllAt(g, 0, SignedBlockLayout(p)) && |g| == 14
  {
    var f, l := SignedBlock(p), SignedBlockLayout(p);
    g := PutAll(f);
    SignedBlockConsecutive(p);
    GroupLaid(f, l);
    LastField(f, l);
  }

  lemma OneMoreField(f: seq<Item>, l: seq<Field>, i: Item, x: Field)
    requires Consecutive(f, l) && l != [] && x.bytes == Put(i) && x.off == l[|l| - 1].off + |l[|l| - 1].bytes|
    ensures Consecutive(f + [i], l + [x])
  {
  }

  lemma SignedKeysLaid(p: Packet) returns (g: Bytes)
    ensures g == PutAll(SignedKeys(p)) && AllAt(g, 0, SignedKeysLayout(p))
    ensures |g| == 9 + |p.signerKey| + |p.replyBlock|
  {
    g := PutAll(SignedKeys(p));
    FlagBytes(p.decoy);
    assert SameBytes(SignedKeys(p), SignedKeysLayout(p));
    GroupLaid(SignedKeys(p), SignedKeysLayout(p));
    LastField(SignedKeys(p), SignedKeysLayout(p));
  }

  /** The bytes a packet's signature is made over; the payload comes last, without its length. */
  lemma {:induction false} SignedLayout(p: Packet, a: nat, b: nat)
    requires |p.id| == 32 && a == 45 + |p.sourceNode| + |p.destGroup| + |p.destNode|
    requires b == a + 59 + |p.signerKey| + |p.replyBlock|
    ensures Laid(Canonical(p), SignedIdentLayout(p), a, SignedSizesLayout(p), a + 36, SignedBlockLayout(p), a + 50,
                 SignedKeysLayout(p), b, [])
    ensures |Canonical(p)| == b + |p.payload| && Canonical(p)[b..] == p.payload
  {
    var g0 := SignedIdentLaid(p);
    var g1 := SignedSizesLaid(p);
    var g2 := SignedBlockLaid(p);
    var g3 := SignedKeysLaid(p);
    CanonicalGroups(p, g0, g1, g2, g3);
    var l0, l1, l2, l3 := SignedIdentLayout(p), SignedSizesLayout(p), SignedBlockLayout(p), SignedKeysLayout(p);
    PayloadLast(g0, l0, g1, l1, g2, l2, g3, l3, p.payload, Canonical(p), a, b);
  }

  lemma PayloadLast(g0: Bytes, l0: seq<Field>, g1: Bytes, l1: seq<Field>, g2: Bytes, l2: seq<Field>, g3: Bytes,
                    l3: seq<Field>, payload: Bytes, m: Bytes, a: nat, b: nat)
    requires m == g0 + g1 + g2 + g3 + payload && AllAt(g0, 0, l0) && AllAt(g1, 0, l1) && AllAt(g2, 0, l2)
    requires AllAt(g3, 0, l3) && |g0| == a && |g1| == 36 && |g2| == 14 && b == a + 50 + |g3|
    ensures Laid(m, l0, a, l1, a + 36, l2, a + 50, l3, b, []) && |m| == b + |payload| && m[b..] == payload
  {
    FiveLaid(g0, l0, g1, l1, g2, l2, g3, l3, payload, [], m, a, a + 36, a + 50, b);
  }

  lemma CanonicalGroups(p: Packet, g0: Bytes, g1: Bytes, g2: Bytes, g3: Bytes)
    requires g0 == PutAll(SignedIdent(p)) && g1 == PutAll(SignedSizes(p)) && g2 == PutAll(SignedBlock(p))
    requires g3 == PutAll(SignedKeys(p))
    ensures Canonical(p) == g0 + g1 + g2 + g3 + p.payload
  {
    PutAllPlus(SignedIdent(p), SignedSizes(p));
    PutAllPlus(SignedIdent(p) + SignedSizes(p), SignedBlock(p));
    PutAllPlus(SignedIdent(p) + SignedSizes(p) + SignedBlock(p), SignedKeys(p));
  }

  // ---- the announce ------------------------------------------------------------------------------------------

  function HeadLayout(a: Ann.Announce): seq<Field> {
    var x := 4 + |a.destHash|;
    var y := x + 4 + |a.signKey|;
    var z := y + 4 + |a.pubKey|;
    [Field(0, Long(a.destHash)), Field(x, Long(a.signKey)), Field(y, Long(a.pubKey)), Field(z, Long(a.mlkemPub)),
     Field(z + 4 + |a.mlkemPub|, BigEndian(a.port, 2))]
  }

  function ClockLayout(a: Ann.Announce): seq<Field> {
    [Field(0, BigEndian(a.timestamp % 0x1_0000_0000_0000_0000, 8)), Field(8, BigEndian(a.nonce, 8))]
  }

  /** The count of a list, and its elements in order, each after those before it. */
  lemma {:induction false} ListLayout(l: seq<Bytes>, i: nat)
    requires i < |l|
    ensures At(Ann.PutList(l), 0, BigEndian(|l|, 4))
    ensures At(Ann.PutList(l), 4 + SizeTo(Ann.Blobs(l), i), Long(l[i]))
  {
    var f := Ann.Blobs(l);
    FieldAt(f, i);
    Between([], BigEndian(|l|, 4), PutAll(f));
    assert Ann.PutList(l) == [] + (BigEndian(|l|, 4) + PutAll(f)) == BigEndian(|l|, 4) + (PutAll(f) + []);
    ShiftedOne(BigEndian(|l|, 4), PutAll(f), [], SizeTo(f, i), Long(l[i]));
  }

  lemma HeadBytes(a: Ann.Announce)
    ensures SameBytes(Ann.Head(a), HeadLayout(a))
  {
  }

  lemma HeadLaid(a: Ann.Announce)
    ensures AllAt(PutAll(Ann.Head(a)), 0, HeadLayout(a))
    ensures |PutAll(Ann.Head(a))| == 18 + |a.destHash| + |a.signKey| + |a.pubKey| + |a.mlkemPub|
  {
    HeadBytes(a);
    GroupLaid(Ann.Head(a), HeadLayout(a));
    LastField(Ann.Head(a), HeadLayout(a));
  }

  lemma ClockLaid(a: Ann.Announce)
    ensures AllAt(PutAll(Ann.Clock(a)), 0, ClockLayout(a)) && |PutAll(Ann.Clock(a))| == 16
  {
    GroupLaid(Ann.Clock(a), ClockLayout(a));
    LastField(Ann.Clock(a), ClockLayout(a));
  }

  /** The signed bytes of an announce: names, keys and port, the capabilities from c on, the
      application data from d on, the relays if any from e on, and in the last 16 bytes the timestamp
      and the nonce. */
  lemma {:induction false} AnnounceLayout(a: Ann.Announce, c: nat, d: nat, e: nat, n: nat)
    requires c == 18 + |a.destHash| + |a.signKey| + |a.pubKey| + |a.mlkemPub| && d == c + |Ann.PutList(a.capabilities)|
    requires e == d + 4 + |a.appData| && n == e + |if a.relayIds == [] then [] else Ann.PutList(a.relayIds)|
    ensures Laid(Ann.Signed(a), HeadLayout(a), c, One(Ann.PutList(a.capabilities)), d, One(Long(a.appData)), e,
                 One(if a.relayIds == [] then [] else Ann.PutList(a.relayIds)), n, ClockLayout(a))
    ensures |Ann.Signed(a)| == n + 16
  {
    HeadLaid(a);
    ClockLaid(a);
    SignedGroups(a);
    OneLaid(Ann.PutList(a.capabilities));
    OneLaid(Long(a.appData));
    OneLaid(Ann.Relays(a));
    FiveLaid(PutAll(Ann.Head(a)), HeadLayout(a), Ann.PutList(a.capabilities), One(Ann.PutList(a.capabilities)),
             Long(a.appData), One(Long(a.appData)), Ann.Relays(a), One(Ann.Relays(a)), PutAll(Ann.Clock(a)),
             ClockLayout(a), Ann.Signed(a), c, d, e, n);
  }

  function One(b: Bytes): seq<Field> { [Field(0, b)] }

  lemma OneLaid(b: Bytes)
    ensures AllAt(b, 0, One(b))
  {
  }

  lemma SignedGroups(a: Ann.Announce)
    ensures Ann.Signed(a) ==
            PutAll(Ann.Head(a)) + Ann.PutList(a.capabilities) + Long(a.appData) + Ann.Relays(a) + PutAll(Ann.Clock(a))
  {
    Ann.PutClock(a);
    Ann.Assoc(PutAll(Ann.Head(a)) + Ann.PutList(a.capabilities) + Long(a.appData) + Ann.Relays(a),
              Put(Ann.Clock(a)[0]), Put(Ann.Clock(a)[1]));
  }
}
