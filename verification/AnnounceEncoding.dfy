/** The signed bytes of an announce (internal/protocol/announce.go:49-95). RelayIDs is written
    only when it is not empty and has no presence flag, yet no two announces share their signed
    bytes. */
module AnnounceEncoding {
  import opened WireFormat

  datatype Announce = Announce(destHash: Bytes, signKey: Bytes, pubKey: Bytes, mlkemPub: Bytes, port: nat,
                               capabilities: seq<Bytes>, relayIds: seq<Bytes>, appData: Bytes, timestamp: int,
                               nonce: nat)
  {
    /** The ranges of the Go types, and fields and lists shorter than 2^32. */
    predicate Valid() {
      && |destHash| < 0x1_0000_0000 && |signKey| < 0x1_0000_0000 && |pubKey| < 0x1_0000_0000
      && |mlkemPub| < 0x1_0000_0000
      && port < 0x1_0000 && ValidList(capabilities) && ValidList(relayIds) && |appData| < 0x1_0000_0000
      && -0x8000_0000_0000_0000 <= timestamp < 0x8000_0000_0000_0000 && nonce < 0x1_0000_0000_0000_0000
    }
  }

  predicate ValidList(l: seq<Bytes>) { |l| < 0x1_0000_0000 && forall i :: 0 <= i < |l| ==> |l[i]| < 0x1_0000_0000 }

  function Blobs(l: seq<Bytes>): seq<Item> { seq(|l|, i requires 0 <= i < |l| => Blob(l[i])) }

  /** A list: its count, then its elements with their lengths. */
  function PutList(l: seq<Bytes>): Bytes { Put(Num(4, |l|)) + PutAll(Blobs(l)) }

  function Head(a: Announce): seq<Item> {
    [Blob(a.destHash), Blob(a.signKey), Blob(a.pubKey), Blob(a.mlkemPub), Num(2, a.port)]
  }

  function Clock(a: Announce): seq<Item> { [Num(8, a.timestamp % 0x1_0000_0000_0000_0000), Num(8, a.nonce)] }

  function Relays(a: Announce): Bytes { if a.relayIds == [] then [] else PutList(a.relayIds) }

  /** The bytes a signature is made over. */
  function Signed(a: Announce): Bytes {
    PutAll(Head(a)) + PutList(a.capabilities) + Put(Blob(a.appData)) + Relays(a) + Put(Clock(a)[0]) + Put(Clock(a)[1])
  }

  lemma Assoc(a: Bytes, b: Bytes, c: Bytes)
    ensures a + b + c == a + (b + c)
  {
  }

  lemma EmptyPlus(b: Bytes)
    ensures [] + b == b
  {
  }

  /** The same bytes, each part followed by the rest. */
  lemma SignedNested(a: Announce)
    ensures Signed(a) ==
            PutAll(Head(a)) + (PutList(a.capabilities) + (PutAll([Blob(a.appData)]) + (Relays(a) + PutAll(Clock(a)))))
  {
    var h, l, d, r, c := PutAll(Head(a)), PutList(a.capabilities), PutAll([Blob(a.appData)]), Relays(a),
      PutAll(Clock(a));
    PutOne(Blob(a.appData));
    PutClock(a);
    Assoc(h + l + d + r, Put(Clock(a)[0]), Put(Clock(a)[1]));
    Assoc(h + l + d, r, c);
    Assoc(h + l, d, r + c);
    Assoc(h, l, d + (r + c));
  }

  // ---- writing them --------------------------------------------------------------------------

  method AppendBytes(b: Bytes, p: Bytes) returns (r: Bytes)
    ensures r == b + Put(Blob(p))
  {
    r := b + BigEndian(|p|, 4) + p;
  }

  method AppendList(b: Bytes, l: seq<Bytes>) returns (r: Bytes)
    ensures r == b + PutList(l)
  {
    r := b + BigEndian(|l|, 4);
    ghost var start := r;
    for i := 0 to |l|
      invariant r == start + PutAll(Blobs(l[..i]))
    {
      BlobsSnoc(l, i);
      Assoc(start, PutAll(Blobs(l[..i])), Put(Blob(l[i])));
      r := AppendBytes(r, l[i]);
    }
    assert l[..|l|] == l;
    Assoc(b, BigEndian(|l|, 4), PutAll(Blobs(l)));
  }

  lemma BlobsSnoc(l: seq<Bytes>, i: nat)
    requires i < |l|
    ensures PutAll(Blobs(l[..i + 1])) == PutAll(Blobs(l[..i])) + Put(Blob(l[i]))
  {
    assert Blobs(l[..i + 1]) == Blobs(l[..i]) + [Blob(l[i])];
    PutAllPlus(Blobs(l[..i]), [Blob(l[i])]);
    PutOne(Blob(l[i]));
  }

  lemma PutOne(i: Item)
    ensures PutAll([i]) == Put(i)
  {
    assert [i][1..] == [];
  }

  lemma PutHead(a: Announce)
    ensures PutAll(Head(a)) ==
            Put(Blob(a.destHash)) + Put(Blob(a.signKey)) + Put(Blob(a.pubKey)) + Put(Blob(a.mlkemPub))
            + Put(Num(2, a.port))
  {
    var h := Head(a);
    PutAllPlus(h[..1], h[1..2]);
    PutAllPlus(h[..2], h[2..3]);
    PutAllPlus(h[..3], h[3..4]);
    PutAllPlus(h[..4], h[4..]);
    assert h == h[..4] + h[4..] && h[..4] == h[..3] + h[3..4] && h[..3] == h[..2] + h[2..3] &&
           h[..2] == h[..1] + h[1..2];
    assert h[..1] == [h[0]] && h[1..2] == [h[1]] && h[2..3] == [h[2]] && h[3..4] == [h[3]] && h[4..] == [h[4]];
    PutOne(h[0]);
    PutOne(h[1]);
    PutOne(h[2]);
    PutOne(h[3]);
    PutOne(h[4]);
  }

  lemma PutClock(a: Announce)
    ensures PutAll(Clock(a)) == Put(Clock(a)[0]) + Put(Clock(a)[1])
  {
    var c := Clock(a);
    assert c == [c[0]] + [c[1]];
    PutAllPlus([c[0]], [c[1]]);
    PutOne(c[0]);
    PutOne(c[1]);
  }

  method HeadBytes(a: Announce) returns (b: Bytes)
    ensures b == PutAll(Head(a))
  {
    b := AppendBytes([], a.destHash);
    assert b == Put(Blob(a.destHash)) by { EmptyPlus(Put(Blob(a.destHash))); }
    b := AppendBytes(b, a.signKey);
    b := AppendBytes(b, a.pubKey);
    b := AppendBytes(b, a.mlkemPub);
    PutHead(a);
    b := b + Put(Num(2, a.port));
  }

  method SignedBytes(a: Announce) returns (b: Bytes)
    ensures b == Signed(a)
  {
    b := HeadBytes(a);
    b := AppendList(b, a.capabilities);
    b := AppendBytes(b, a.appData);
    ghost var before := b;
    if |a.relayIds| > 0 { b := AppendList(b, a.relayIds); }
    assert b == before + Relays(a);
    b := b + BigEndian(a.timestamp % 0x1_0000_0000_0000_0000, 8);
    b := b + BigEndian(a.nonce, 8);
  }

  // ---- no two announces share them ----------------------------------------------------------------

  lemma BlobsFit(l: seq<Bytes>)
    requires ValidList(l)
    ensures AllFit(Blobs(l)) && Fits(Num(4, |l|))
  {
    PowValues();
  }

  lemma BlobsSame(l: seq<Bytes>, m: seq<Bytes>)
    requires Blobs(l) == Blobs(m)
    ensures l == m
  {
    assert |Blobs(l)| == |l| && |Blobs(m)| == |m|;
    forall i | 0 <= i < |l|
      ensures l[i] == m[i]
    {
      assert Blobs(l)[i] == Blobs(m)[i];
    }
  }

  /** A list and what follows it can be told apart. */
  lemma {:induction false} ListUnambiguous(l: seq<Bytes>, x: Bytes, m: seq<Bytes>, y: Bytes)
    requires ValidList(l) && ValidList(m) && PutList(l) + x == PutList(m) + y
    ensures l == m && x == y
  {
    var p, q := PutAll(Blobs(l)) + x, PutAll(Blobs(m)) + y;
    Assoc(BigEndian(|l|, 4), PutAll(Blobs(l)), x);
    Assoc(BigEndian(|m|, 4), PutAll(Blobs(m)), y);
    CountUnambiguous(|l|, p, |m|, q);
    BlobsFit(l);
    BlobsFit(m);
    assert Kinds(Blobs(l)) == Kinds(Blobs(m));
    Unambiguous(Blobs(l), x, Blobs(m), y);
    BlobsSame(l, m);
  }

  lemma CountUnambiguous(n: nat, p: Bytes, k: nat, q: Bytes)
    requires n < 0x1_0000_0000 && k < 0x1_0000_0000 && BigEndian(n, 4) + p == BigEndian(k, 4) + q
    ensures n == k && p == q
  {
    PowValues();
    ValueOfBigEndian(n, 4);
    ValueOfBigEndian(k, 4);
    assert (BigEndian(n, 4) + p)[..4] == BigEndian(n, 4) && (BigEndian(k, 4) + q)[..4] == BigEndian(k, 4);
    assert (BigEndian(n, 4) + p)[4..] == p && (BigEndian(k, 4) + q)[4..] == q;
  }

  lemma PartsFit(a: Announce)
    requires a.Valid()
    ensures AllFit(Head(a)) && AllFit(Clock(a)) && AllFit([Blob(a.appData)]) && |PutAll(Clock(a))| == 16
  {
    PowValues();
    PutClock(a);
  }

  /** The optional list is told apart from its absence by length alone: without it exactly the
      16 bytes of timestamp and nonce remain, with it more. */
  lemma {:induction false} TailUnambiguous(a: Announce, b: Announce)
    requires a.Valid() && b.Valid() && Relays(a) + PutAll(Clock(a)) == Relays(b) + PutAll(Clock(b))
    ensures a.relayIds == b.relayIds && Clock(a) == Clock(b)
  {
    PartsFit(a);
    PartsFit(b);
    if a.relayIds != [] && b.relayIds != [] {
      ListUnambiguous(a.relayIds, PutAll(Clock(a)), b.relayIds, PutAll(Clock(b)));
    } else {
      assert |Relays(a)| == |Relays(b)|;
      assert a.relayIds != [] ==> |PutList(a.relayIds)| >= 4;
      assert b.relayIds != [] ==> |PutList(b.relayIds)| >= 4;
      assert Relays(a) + PutAll(Clock(a)) == PutAll(Clock(a)) && Relays(b) + PutAll(Clock(b)) == PutAll(Clock(b));
    }
    assert PutAll(Clock(a)) + [] == PutAll(Clock(a)) && PutAll(Clock(b)) + [] == PutAll(Clock(b));
    assert Kinds(Clock(a)) == Kinds(Clock(b));
    Unambiguous(Clock(a), [], Clock(b), []);
  }

  lemma HeadSame(a: Announce, b: Announce)
    requires Head(a) == Head(b)
    ensures a.destHash == b.destHash && a.signKey == b.signKey && a.pubKey == b.pubKey && a.mlkemPub == b.mlkemPub
    ensures a.port == b.port
  {
    var h, g := Head(a), Head(b);
    assert h[0] == g[0] && h[1] == g[1] && h[2] == g[2] && h[3] == g[3] && h[4] == g[4];
  }

  lemma ClockSame(a: Announce, b: Announce)
    requires a.Valid() && b.Valid() && Clock(a) == Clock(b)
    ensures a.timestamp == b.timestamp && a.nonce == b.nonce
  {
    var c, d := Clock(a), Clock(b);
    assert c[0] == d[0] && c[1] == d[1];
  }

  /** Equal signed bytes mean equal announces: every field is bound by the signature. */
  lemma {:induction false} SignedInjective(a: Announce, b: Announce)
    requires a.Valid() && b.Valid() && Signed(a) == Signed(b)
    ensures a == b
  {
    SignedNested(a);
    SignedNested(b);
    PartsFit(a);
    PartsFit(b);
    var ra, rb := Relays(a) + PutAll(Clock(a)), Relays(b) + PutAll(Clock(b));
    var da, db := PutAll([Blob(a.appData)]) + ra, PutAll([Blob(b.appData)]) + rb;
    assert Kinds(Head(a)) == Kinds(Head(b));
    Unambiguous(Head(a), PutList(a.capabilities) + da, Head(b), PutList(b.capabilities) + db);
    ListUnambiguous(a.capabilities, da, b.capabilities, db);
    assert Kinds([Blob(a.appData)]) == Kinds([Blob(b.appData)]);
    Unambiguous([Blob(a.appData)], ra, [Blob(b.appData)], rb);
    assert [Blob(a.appData)][0] == [Blob(b.appData)][0];
    TailUnambiguous(a, b);
    HeadSame(a, b);
    ClockSame(a, b);
  }
}
