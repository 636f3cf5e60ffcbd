/** The packet's binary form, its frame on a stream and its signed form
    (internal/protocol/packet.go:30-128, 535-629). */
module PacketCodec {
  import opened Basics
  import opened WireFormat

  const MAX_FRAME_SIZE: nat := 0x80_0000

  /** time is the clock reading in nanoseconds since the Unix epoch. */
  datatype Packet = Packet(
    id: Bytes, kind: nat, time: int, sourceNode: Bytes, destGroup: Bytes, destNode: Bytes,
    totalChunks: nat, chunkNumber: nat, subIndex: nat, subTotal: nat,
    streaming: bool, blockIndex: nat, blockLen: nat, final: bool, hybridSealed: bool, pq: bool, resumable: bool,
    dataShards: nat, parityShards: nat, originalLen: nat, variable: bool, decoy: bool, payloadSize: nat,
    payload: Bytes, signerKey: Bytes, signature: Bytes, replyBlock: Bytes, pad: Bytes)
  {
    /** The ranges of the Go types, and variable fields under 2^32 bytes. */
    predicate Valid() {
      && |id| == 32 && kind < 0x100 && -0x8000_0000_0000_0000 <= time < 0x8000_0000_0000_0000
      && totalChunks < 0x1_0000_0000 && chunkNumber < 0x1_0000_0000 && subIndex < 0x1_0000_0000
      && subTotal < 0x1_0000_0000
      && blockIndex < 0x1_0000_0000 && blockLen < 0x1_0000_0000
      && dataShards < 0x1_0000_0000 && parityShards < 0x1_0000_0000 && originalLen < 0x1_0000_0000_0000_0000
      && payloadSize < 0x1_0000_0000
      && |sourceNode| < 0x1_0000_0000 && |destGroup| < 0x1_0000_0000 && |destNode| < 0x1_0000_0000
      && |payload| < 0x1_0000_0000 && |signerKey| < 0x1_0000_0000 && |signature| < 0x1_0000_0000
      && |replyBlock| < 0x1_0000_0000 && |pad| < 0x1_0000_0000
    }
  }

  /** A signed 64-bit number as an unsigned one, and back. */
  function ToUnsigned(t: int): nat { t % 0x1_0000_0000_0000_0000 }

  function ToSigned(n: nat): int { if n < 0x8000_0000_0000_0000 then n else n - 0x1_0000_0000_0000_0000 }

  function Bool(b: bool): Item { Num(1, if b then 1 else 0) }

  function U32(n: nat): Item { Num(4, n) }

  function Ident(p: Packet): seq<Item> {
    [Raw(p.id), Num(1, p.kind), Num(8, ToUnsigned(p.time)), Blob(p.sourceNode), Blob(p.destGroup), Blob(p.destNode)]
  }

  function Chunks(p: Packet): seq<Item> { [U32(p.totalChunks), U32(p.chunkNumber), U32(p.subIndex), U32(p.subTotal)] }

  function BlockPart(p: Packet): seq<Item> {
    [Bool(p.streaming), U32(p.blockIndex), U32(p.blockLen), Bool(p.final), Bool(p.hybridSealed), Bool(p.pq),
     Bool(p.resumable)]
  }

  function Coding(p: Packet): seq<Item> {
    [U32(p.dataShards), U32(p.parityShards), Num(8, p.originalLen), Bool(p.variable), Bool(p.decoy), U32(p.payloadSize)]
  }

  function Bodies(p: Packet): seq<Item> {
    [Blob(p.payload), Blob(p.signerKey), Blob(p.signature), Blob(p.replyBlock), Blob(p.pad)]
  }

  /** The fields of the binary form, in order. */
  function Fields(p: Packet): seq<Item> { Ident(p) + Chunks(p) + BlockPart(p) + Coding(p) + Bodies(p) }

  const IDENT: seq<Kind> := [RawOf(32), NumOf(1), NumOf(8), BlobOf, BlobOf, BlobOf]
  const CHUNKS: seq<Kind> := [NumOf(4), NumOf(4), NumOf(4), NumOf(4)]
  const BLOCK: seq<Kind> := [NumOf(1), NumOf(4), NumOf(4), NumOf(1), NumOf(1), NumOf(1), NumOf(1)]
  const CODING: seq<Kind> := [NumOf(4), NumOf(4), NumOf(8), NumOf(1), NumOf(1), NumOf(4)]
  const BODIES: seq<Kind> := [BlobOf, BlobOf, BlobOf, BlobOf, BlobOf]
  const LAYOUT: seq<Kind> := IDENT + CHUNKS + BLOCK + CODING + BODIES

  function AsNum(i: Item): nat { if i.Num? then i.value else 0 }

  function AsBool(i: Item): bool { AsNum(i) == 1 }

  function AsBytes(i: Item): Bytes { match i case Num(_, _) => [] case Raw(b) => b case Blob(b) => b }

  function FromFields(f: seq<Item>): Packet
    requires |f| == 28
  {
    Packet(AsBytes(f[0]), AsNum(f[1]), ToSigned(AsNum(f[2])), AsBytes(f[3]), AsBytes(f[4]), AsBytes(f[5]),
           AsNum(f[6]), AsNum(f[7]), AsNum(f[8]), AsNum(f[9]),
           AsBool(f[10]), AsNum(f[11]), AsNum(f[12]), AsBool(f[13]), AsBool(f[14]), AsBool(f[15]), AsBool(f[16]),
           AsNum(f[17]), AsNum(f[18]), AsNum(f[19]), AsBool(f[20]), AsBool(f[21]), AsNum(f[22]),
           AsBytes(f[23]), AsBytes(f[24]), AsBytes(f[25]), AsBytes(f[26]), AsBytes(f[27]))
  }

  function Marshalled(p: Packet): Bytes { PutAll(Fields(p)) }

  lemma {:induction false} GetAllCount(kinds: seq<Kind>, s: Bytes)
    ensures GetAll(kinds, s).Some? ==> |GetAll(kinds, s).value.item| == |kinds|
  {
    if kinds != [] {
      match Get(kinds[0], s) {
        case None =>
        case Some(first) => GetAllCount(kinds[1..], first.rest);
      }
    }
  }

  function Unmarshalled(data: Bytes): Option<Packet> {
    match GetAll(LAYOUT, data)
    case None => None
    case Some(t) => GetAllCount(LAYOUT, data); Some(FromFields(t.item))
  }

  method Unmarshal(data: Bytes) returns (p: Option<Packet>)
    ensures p == Unmarshalled(data)
  {
    GetAllCount(LAYOUT, data);
    var items := ReadRecord(LAYOUT, data);
    match items {
      case None => return None;
      case Some(f) => return Some(FromFields(f));
    }
  }

  /** When a field of each width fits. */
  lemma FitRules()
    ensures forall n: nat :: n < 0x100 ==> Fits(Num(1, n))
    ensures forall n: nat :: n < 0x1_0000_0000 ==> Fits(Num(4, n))
    ensures forall n: nat :: n < 0x1_0000_0000_0000_0000 ==> Fits(Num(8, n))
    ensures forall b: Bytes :: |b| < 0x1_0000_0000 ==> Fits(Blob(b))
  {
    PowValues();
  }

  /** These fields all fit, and have this layout. */
  ghost predicate Good(items: seq<Item>, kinds: seq<Kind>) { AllFit(items) && Kinds(items) == kinds }

  lemma GoodPlus(a: seq<Item>, ka: seq<Kind>, b: seq<Item>, kb: seq<Kind>)
    requires Good(a, ka) && Good(b, kb)
    ensures Good(a + b, ka + kb)
  {
    assert Kinds(a + b) == Kinds(a) + Kinds(b);
  }

  lemma IdentGood(p: Packet)
    requires p.Valid()
    ensures Good(Ident(p), IDENT)
  {
    FitRules();
  }

  lemma ChunksGood(p: Packet)
    requires p.Valid()
    ensures Good(Chunks(p), CHUNKS)
  {
    FitRules();
  }

  lemma BlockGood(p: Packet)
    requires p.Valid()
    ensures Good(BlockPart(p), BLOCK)
  {
    FitRules();
  }

  lemma CodingGood(p: Packet)
    requires p.Valid()
    ensures Good(Coding(p), CODING)
  {
    FitRules();
  }

  lemma BodiesGood(p: Packet)
    requires p.Valid()
    ensures Good(Bodies(p), BODIES)
  {
    FitRules();
  }

  lemma FieldsGood(p: Packet)
    requires p.Valid()
    ensures Good(Fields(p), LAYOUT)
  {
    IdentGood(p);
    ChunksGood(p);
    BlockGood(p);
    CodingGood(p);
    BodiesGood(p);
    GoodPlus(Ident(p), IDENT, Chunks(p), CHUNKS);
    GoodPlus(Ident(p) + Chunks(p), IDENT + CHUNKS, BlockPart(p), BLOCK);
    GoodPlus(Ident(p) + Chunks(p) + BlockPart(p), IDENT + CHUNKS + BLOCK, Coding(p), CODING);
    GoodPlus(Ident(p) + Chunks(p) + BlockPart(p) + Coding(p), IDENT + CHUNKS + BLOCK + CODING, Bodies(p), BODIES);
  }

  lemma FieldsBack(p: Packet)
    requires p.Valid()
    ensures FromFields(Fields(p)) == p
  {
    var f := Fields(p);
    assert f[0..6] == Ident(p) && f[6..10] == Chunks(p) && f[10..17] == BlockPart(p) && f[17..23] == Coding(p) &&
           f[23..] == Bodies(p);
  }

  /** Every field is restored, whatever follows the packet. */
  lemma {:induction false} RoundTrip(p: Packet, rest: Bytes)
    requires p.Valid()
    ensures Unmarshalled(Marshalled(p) + rest) == Some(p)
  {
    FieldsGood(p);
    GetPutAll(Fields(p), rest);
    FieldsBack(p);
  }

  /** Every strict prefix of a packet is refused. */
  lemma {:induction false} PrefixRefused(p: Packet, n: nat)
    requires p.Valid() && n < |Marshalled(p)|
    ensures Unmarshalled(Marshalled(p)[..n]) == None
  {
    FieldsGood(p);
    GetAllCutShort(Fields(p), n);
  }

  // ---- frames on a stream ------------------------------------------------------------------------

  function Framed(p: Packet): Bytes { BigEndian(|Marshalled(p)|, 4) + Marshalled(p) }

  /** One frame off a stream, with what is left of it; None for a short or oversized frame. */
  function Unframed(s: Bytes): Option<Taken<Packet>> {
    if |s| < 4 then None
    else
      var n := Value(s[..4]);
      if n > MAX_FRAME_SIZE || |s[4..]| < n then None
      else
        match Unmarshalled(s[4..][..n])
        case None => None
        case Some(p) => Some(Taken(p, s[4..][n..]))
  }

  /** A written packet is read back, and the stream is left at the next one, if and only if its
      binary form is within the frame limit; the writer does not check the limit. */
  lemma {:induction false} FrameReadsBackIff(p: Packet, rest: Bytes)
    requires p.Valid() && |Marshalled(p)| < 0x1_0000_0000
    ensures Unframed(Framed(p) + rest) == if |Marshalled(p)| <= MAX_FRAME_SIZE then Some(Taken(p, rest)) else None
  {
    var m, s := Marshalled(p), Framed(p) + rest;
    PowValues();
    ValueOfBigEndian(|m|, 4);
    assert s[..4] == BigEndian(|m|, 4) && s[4..] == m + rest;
    assert (m + rest)[..|m|] == m && (m + rest)[|m|..] == rest;
    RoundTrip(p, []);
    assert m + [] == m;
  }

  // ---- the signed form -----------------------------------------------------------------------------

  function SignedIdent(p: Packet): seq<Item> {
    [Num(1, p.kind), Raw(p.id), Blob(p.sourceNode), Blob(p.destGroup), Blob(p.destNode)]
  }

  function SignedSizes(p: Packet): seq<Item> {
    [U32(p.chunkNumber), U32(p.totalChunks), U32(p.payloadSize), U32(p.dataShards), U32(p.parityShards),
     Num(8, p.originalLen),
     U32(p.subIndex), U32(p.subTotal)]
  }

  function SignedBlock(p: Packet): seq<Item> {
    [Bool(p.streaming), U32(p.blockIndex), U32(p.blockLen), Bool(p.final), Bool(p.hybridSealed), Bool(p.pq),
     Bool(p.resumable), Bool(p.variable)]
  }

  function SignedKeys(p: Packet): seq<Item> { [Blob(p.signerKey), Blob(p.replyBlock), Bool(p.decoy)] }

  /** The fields the signature covers, before the payload. */
  function SignedFields(p: Packet): seq<Item> { SignedIdent(p) + SignedSizes(p) + SignedBlock(p) + SignedKeys(p) }

  function Canonical(p: Packet): Bytes { PutAll(SignedFields(p)) + p.payload }

  const SIGNED_IDENT: seq<Kind> := [NumOf(1), RawOf(32), BlobOf, BlobOf, BlobOf]
  const SIGNED_SIZES: seq<Kind> := [NumOf(4), NumOf(4), NumOf(4), NumOf(4), NumOf(4), NumOf(8), NumOf(4), NumOf(4)]
  const SIGNED_BLOCK: seq<Kind> := [NumOf(1), NumOf(4), NumOf(4), NumOf(1), NumOf(1), NumOf(1), NumOf(1), NumOf(1)]
  const SIGNED_KEYS: seq<Kind> := [BlobOf, BlobOf, NumOf(1)]

  lemma SignedIdentGood(p: Packet)
    requires p.Valid()
    ensures Good(SignedIdent(p), SIGNED_IDENT)
  {
    FitRules();
  }

  lemma SignedSizesGood(p: Packet)
    requires p.Valid()
    ensures Good(SignedSizes(p), SIGNED_SIZES)
  {
    FitRules();
  }

  lemma SignedBlockGood(p: Packet)
    requires p.Valid()
    ensures Good(SignedBlock(p), SIGNED_BLOCK)
  {
    FitRules();
  }

  lemma SignedKeysGood(p: Packet)
    requires p.Valid()
    ensures Good(SignedKeys(p), SIGNED_KEYS)
  {
    FitRules();
  }

  lemma SignedFieldsGood(p: Packet)
    requires p.Valid()
    ensures Good(SignedFields(p), SIGNED_IDENT + SIGNED_SIZES + SIGNED_BLOCK + SIGNED_KEYS)
  {
    SignedIdentGood(p);
    SignedSizesGood(p);
    SignedBlockGood(p);
    SignedKeysGood(p);
    GoodPlus(SignedIdent(p), SIGNED_IDENT, SignedSizes(p), SIGNED_SIZES);
    GoodPlus(SignedIdent(p) + SignedSizes(p), SIGNED_IDENT + SIGNED_SIZES, SignedBlock(p), SIGNED_BLOCK);
    GoodPlus(SignedIdent(p) + SignedSizes(p) + SignedBlock(p), SIGNED_IDENT + SIGNED_SIZES + SIGNED_BLOCK,
      SignedKeys(p), SIGNED_KEYS);
  }

  /** The packet without what the signature leaves out: its clock, signature and padding. */
  function Covered(p: Packet): Packet { p.(time := 0, signature := [], pad := []) }

  /** The signed bytes determine every field they cover; the payload needs no length because it
      comes last. */
  lemma {:induction false} CanonicalDetermines(p: Packet, q: Packet)
    requires p.Valid() && q.Valid()
    ensures Canonical(p) == Canonical(q) <==> Covered(p) == Covered(q)
  {
    if Canonical(p) == Canonical(q) {
      SignedFieldsGood(p);
      SignedFieldsGood(q);
      Unambiguous(SignedFields(p), p.payload, SignedFields(q), q.payload);
      SameCovered(p, q);
    } else if Covered(p) == Covered(q) {
      CoveredSame(p, q);
    }
  }

  lemma SameCovered(p: Packet, q: Packet)
    requires SignedFields(p) == SignedFields(q) && p.payload == q.payload
    ensures Covered(p) == Covered(q)
  {
    SignedParts(p);
    SignedParts(q);
    SameDisplay(SignedIdent(p), SignedIdent(q));
    SameDisplay(SignedSizes(p), SignedSizes(q));
    SameDisplay(SignedBlock(p), SignedBlock(q));
    SameDisplay(SignedKeys(p), SignedKeys(q));
  }

  lemma SignedParts(p: Packet)
    ensures var f := SignedFields(p);
      f[..5] == SignedIdent(p) && f[5..13] == SignedSizes(p) && f[13..21] == SignedBlock(p) && f[21..] == SignedKeys(p)
  {
  }

  lemma SameDisplay(a: seq<Item>, b: seq<Item>)
    requires a == b && 3 <= |a| <= 8
    ensures a[0] == b[0] && a[1] == b[1] && a[2] == b[2] && (|a| > 3 ==> a[3] == b[3]) && (|a| > 4 ==> a[4] == b[4])
    ensures (|a| > 5 ==> a[5] == b[5]) && (|a| > 6 ==> a[6] == b[6]) && (|a| > 7 ==> a[7] == b[7])
  {
  }

  lemma CoveredSame(p: Packet, q: Packet)
    requires Covered(p) == Covered(q)
    ensures Canonical(p) == Canonical(q)
  {
    assert SignedFields(p) == SignedFields(Covered(p)) && SignedFields(q) == SignedFields(Covered(q));
    assert p.payload == Covered(p).payload && q.payload == Covered(q).payload;
  }
}
