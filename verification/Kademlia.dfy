/** Node ids and the XOR metric (internal/dht/dht.go:35-104). */
module Kademlia {
  /** A 128-bit id, most significant byte first. */
  type ID = s: seq<bv8> | |s| == 16 witness seq(16, _ => 0)

  function Zero(): ID { seq(16, _ => 0) }

  function Xor(a: ID, b: ID): ID { seq(16, i requires 0 <= i < 16 => a[i] ^ b[i]) }

  /** a is smaller than b as a big-endian number, from byte i on. */
  predicate LessFrom(a: ID, b: ID, i: nat)
    requires i <= 16
    decreases 16 - i
  {
    i < 16 && if a[i] != b[i] then a[i] < b[i] else LessFrom(a, b, i + 1)
  }

  predicate Less(a: ID, b: ID) { LessFrom(a, b, 0) }

  /** a is strictly closer to target than b. */
  predicate Closer(target: ID, a: ID, b: ID) { Less(Xor(a, target), Xor(b, target)) }

  // ---- the metric orders the ids -----------------------------------------------------------

  lemma {:induction false} LessIrreflexive(a: ID, i: nat)
    requires i <= 16
    ensures !LessFrom(a, a, i)
    decreases 16 - i
  {
    if i < 16 { LessIrreflexive(a, i + 1); }
  }

  lemma {:induction false} LessTransitive(a: ID, b: ID, c: ID, i: nat)
    requires i <= 16 && LessFrom(a, b, i) && LessFrom(b, c, i)
    ensures LessFrom(a, c, i)
    decreases 16 - i
  {
    if a[i] == b[i] && b[i] == c[i] { LessTransitive(a, b, c, i + 1); }
  }

  lemma {:induction false} LessTotal(a: ID, b: ID, i: nat)
    requires i <= 16 && forall j :: 0 <= j < i ==> a[j] == b[j]
    ensures LessFrom(a, b, i) || LessFrom(b, a, i) || a == b
    decreases 16 - i
  {
    if i < 16 && a[i] == b[i] { LessTotal(a, b, i + 1); }
  }

  lemma ZeroXor(t: bv8)
    ensures 0 ^ t == t
  {
  }

  lemma XorBack(x: bv8, t: bv8)
    ensures (x ^ t) ^ t == x
  {
  }

  lemma XorInjective(a: ID, b: ID, t: ID)
    requires Xor(a, t) == Xor(b, t)
    ensures a == b
  {
    forall i: nat | i < 16
      ensures a[i] == b[i]
    {
      XorInjectiveAt(a, b, t, i);
    }
  }

  lemma XorInjectiveAt(a: ID, b: ID, t: ID, i: nat)
    requires i < 16 && Xor(a, t) == Xor(b, t)
    ensures a[i] == b[i]
  {
    XorAt(a, t, i);
    XorAt(b, t, i);
  }

  /** What a byte of the distance gives back. */
  lemma XorAt(a: ID, t: ID, i: nat)
    requires i < 16
    ensures Xor(a, t)[i] ^ t[i] == a[i]
  {
    XorBack(a[i], t[i]);
  }

  lemma CloserIrreflexive(t: ID, a: ID)
    ensures !Closer(t, a, a)
  {
    LessIrreflexive(Xor(a, t), 0);
  }

  lemma {:induction false} CloserTransitive(t: ID, a: ID, b: ID, c: ID)
    requires Closer(t, a, b) && Closer(t, b, c)
    ensures Closer(t, a, c)
  {
    LessTransitive(Xor(a, t), Xor(b, t), Xor(c, t), 0);
  }

  /** Different ids are never at the same distance. */
  lemma {:induction false} CloserTotal(t: ID, a: ID, b: ID)
    requires a != b
    ensures Closer(t, a, b) || Closer(t, b, a)
  {
    LessTotal(Xor(a, t), Xor(b, t), 0);
    if Xor(a, t) == Xor(b, t) { XorInjective(a, b, t); }
  }

  // ---- the operations ------------------------------------------------------------------------

  method IsZero(id: ID) returns (r: bool)
    ensures r == (id == Zero())
  {
    for i := 0 to 16
      invariant forall j :: 0 <= j < i ==> id[j] == 0
    {
      if id[i] != 0 { return false; }
    }
    assert id == Zero();
    return true;
  }

  method ComputeXor(a: ID, b: ID) returns (d: ID)
    ensures d == Xor(a, b)
  {
    d := Zero();
    for i := 0 to 16
      invariant d[..i] == Xor(a, b)[..i]
    {
      d := d[i := a[i] ^ b[i]];
    }
  }

  method ComputeLess(a: ID, b: ID) returns (r: bool)
    ensures r == Less(a, b)
  {
    for i := 0 to 16
      invariant Less(a, b) == LessFrom(a, b, i)
    {
      if a[i] != b[i] { return a[i] < b[i]; }
    }
    return false;
  }

  method ComputeCloser(target: ID, a: ID, b: ID) returns (r: bool)
    ensures r == Closer(target, a, b)
  {
    var da := ComputeXor(a, target);
    var db := ComputeXor(b, target);
    r := ComputeLess(da, db);
  }

  // ---- buckets ---------------------------------------------------------------------------------

  /** The number of leading zero bits of a byte. */
  function LeadingZeros8(x: bv8): nat {
    if x >= 128 then 0 else if x >= 64 then 1 else if x >= 32 then 2 else if x >= 16 then 3
    else if x >= 8 then 4 else if x >= 4 then 5 else if x >= 2 then 6 else if x >= 1 then 7 else 8
  }

  /** The byte whose only bit is bit n. */
  function Mask(n: nat): bv8
    requires n < 8
  {
    match n case 0 => 1 case 1 => 2 case 2 => 4 case 3 => 8 case 4 => 16 case 5 => 32 case 6 => 64 case _ => 128
  }

  /** Bit n of an id, counted from the least significant. */
  predicate Bit(d: ID, n: nat)
    requires n < 128
  {
    d[15 - n / 8] & Mask(n % 8) != 0
  }

  /** n is the position of the most significant set bit. */
  predicate TopBit(d: ID, n: nat) {
    n < 128 && Bit(d, n) && forall m: nat | n < m < 128 :: !Bit(d, m)
  }

  /** The bucket of a nonzero distance, from byte i on. */
  function BucketFrom(d: ID, i: nat): (r: int)
    requires i <= 16
    ensures -1 <= r < (16 - i) * 8
    decreases 16 - i
  {
    if i == 16 then -1
    else if d[i] != 0 then (15 - i) * 8 + (7 - LeadingZeros8(d[i]))
    else BucketFrom(d, i + 1)
  }

  function BucketOf(self: ID, other: ID): int { BucketFrom(Xor(self, other), 0) }

  method BucketIndex(self: ID, other: ID) returns (r: int)
    ensures r == BucketOf(self, other)
  {
    var d := ComputeXor(self, other);
    for i := 0 to 16
      invariant BucketFrom(d, 0) == BucketFrom(d, i)
    {
      if d[i] != 0 {
        var msbInByte := 7 - LeadingZeros8(d[i]);
        var byteFromLsb := 16 - 1 - i;
        return byteFromLsb * 8 + msbInByte;
      }
    }
    return -1;
  }

  lemma TopBitOfByte(x: bv8)
    requires x != 0
    ensures LeadingZeros8(x) < 8 && x & Mask(7 - LeadingZeros8(x)) != 0
    ensures forall q: nat | 7 - LeadingZeros8(x) < q < 8 :: x & Mask(q) == 0
  {
  }

  /** Bytes before i being zero, the bucket is the most significant set bit, or -1. */
  lemma {:induction false} BucketFromTop(d: ID, i: nat)
    requires i <= 16 && forall j :: 0 <= j < i ==> d[j] == 0
    ensures BucketFrom(d, i) == -1 <==> d == Zero()
    ensures BucketFrom(d, i) != -1 ==> TopBit(d, BucketFrom(d, i))
    decreases 16 - i
  {
    if i == 16 {
      assert d == Zero();
    } else if d[i] == 0 {
      BucketFromTop(d, i + 1);
    } else {
      TopBitOfByte(d[i]);
      var n: nat := (15 - i) * 8 + (7 - LeadingZeros8(d[i]));
      assert n / 8 == 15 - i && n % 8 == 7 - LeadingZeros8(d[i]);
      forall m: nat | n < m < 128
        ensures !Bit(d, m)
      {
        if 15 - m / 8 < i {
          assert d[15 - m / 8] == 0;
        } else {
          assert m / 8 == n / 8 && m % 8 > n % 8;
        }
      }
    }
  }

  /** The bucket of an id is the most significant bit in which it differs from self; only self
      has none. */
  lemma {:induction false} BucketIsTopBit(self: ID, other: ID)
    ensures BucketOf(self, other) == -1 <==> self == other
    ensures self != other ==> TopBit(Xor(self, other), BucketOf(self, other))
  {
    BucketFromTop(Xor(self, other), 0);
    if self == other {
      assert forall i :: 0 <= i < 16 ==> Xor(self, other)[i] == 0;
      assert Xor(self, other) == Zero();
    } else if Xor(self, other) == Zero() {
      forall i | 0 <= i < 16
        ensures self[i] == other[i]
      {
        XorAt(self, other, i);
        assert Xor(self, other)[i] == 0;
        ZeroXor(other[i]);
      }
    }
  }

  lemma {:induction false} LowerTopSmaller(x: ID, y: ID, i: nat)
    requires i <= 16 && BucketFrom(x, i) < BucketFrom(y, i)
    ensures LessFrom(x, y, i)
    decreases 16 - i
  {
    if x[i] == 0 && y[i] == 0 { LowerTopSmaller(x, y, i + 1); }
  }

  lemma XorSymmetric(a: ID, b: ID)
    ensures Xor(a, b) == Xor(b, a)
  {
    forall i | 0 <= i < 16
      ensures a[i] ^ b[i] == b[i] ^ a[i]
    {
    }
  }

  /** Buckets follow the metric: an id in a lower bucket of self is closer to self. */
  lemma {:induction false} LowerBucketCloser(self: ID, a: ID, b: ID)
    requires BucketOf(self, a) < BucketOf(self, b)
    ensures Closer(self, a, b)
  {
    XorSymmetric(self, a);
    XorSymmetric(self, b);
    LowerTopSmaller(Xor(a, self), Xor(b, self), 0);
  }
}
