/** The k-bucket routing table (internal/dht/dht.go:106-181), proved against its history: each
    bucket lists, oldest first, the k most recently sighted ids that belong to it. */
module KademliaTable {
  import opened Contacts
  import opened Kademlia
  import opened NodeLookup
  import opened Ranking

  type Peer = Contact<ID>

  const DEFAULT_K: nat := 20
  const DEFAULT_ALPHA: nat := 3
  const DEFAULT_MAX_ROUNDS: nat := 20

  // ---- the history a bucket stands for ---------------------------------------------------------

  predicate Belongs(self: ID, bi: nat, c: Peer) {
    c.id != self && c.id != Zero() && BucketOf(self, c.id) == bi
  }

  /** The sightings that concern bucket bi. */
  function Only(self: ID, bi: nat, h: seq<Peer>): seq<Peer> {
    if h == [] then []
    else Only(self, bi, h[..|h| - 1]) + if Belongs(self, bi, h[|h| - 1]) then [h[|h| - 1]] else []
  }

  function Bucket(self: ID, k: nat, bi: nat, h: seq<Peer>): seq<Peer> { LastK(k, Latest(Only(self, bi, h))) }

  lemma BucketStep(self: ID, k: nat, bi: nat, h: seq<Peer>, c: Peer)
    requires k > 0
    ensures Bucket(self, k, bi, h + [c]) ==
      if Belongs(self, bi, c) then Sighted(Bucket(self, k, bi, h), c, k) else Bucket(self, k, bi, h)
  {
    assert (h + [c])[..|h + [c]| - 1] == h;
    var only := Only(self, bi, h);
    if Belongs(self, bi, c) {
      LatestSnoc(only, c);
      LatestDistinct(only);
      SightingStep(Latest(only), c, k);
    } else {
      assert only + [] == only;
    }
  }

  lemma {:induction false} OnlyBelongs(self: ID, bi: nat, h: seq<Peer>)
    ensures forall c | c in Only(self, bi, h) :: Belongs(self, bi, c) && c in h
  {
    if h != [] { OnlyBelongs(self, bi, h[..|h| - 1]); }
  }

  /** A bucket holds at most k contacts, no id twice, and only ids of its distance. */
  lemma {:induction false} BucketSound(self: ID, k: nat, bi: nat, h: seq<Peer>)
    ensures var b := Bucket(self, k, bi, h);
      |b| <= k && Distinct(b) && forall c | c in b :: Belongs(self, bi, c) && c in h
  {
    OnlyBelongs(self, bi, h);
    LatestDistinct(Only(self, bi, h));
  }

  // ---- the whole table ----------------------------------------------------------------------------------

  /** The contacts of buckets 0..n in order. */
  function Contents(self: ID, k: nat, h: seq<Peer>, n: nat): seq<Peer> {
    if n == 0 then [] else Contents(self, k, h, n - 1) + Bucket(self, k, n - 1, h)
  }

  ghost predicate Placed(self: ID, h: seq<Peer>, n: nat, c: Peer) {
    c in h && c.id != self && c.id != Zero() && BucketOf(self, c.id) < n
  }

  lemma {:induction false} ContentsPlaced(self: ID, k: nat, h: seq<Peer>, n: nat)
    ensures forall c | c in Contents(self, k, h, n) :: Placed(self, h, n, c)
  {
    if n > 0 {
      ContentsPlaced(self, k, h, n - 1);
      BucketSound(self, k, n - 1, h);
      forall c | c in Contents(self, k, h, n)
        ensures Placed(self, h, n, c)
      {
        assert c in Contents(self, k, h, n - 1) ==> Placed(self, h, n - 1, c);
      }
    }
  }

  lemma ContentsNotSelf(self: ID, k: nat, h: seq<Peer>, n: nat)
    ensures var cs := Contents(self, k, h, n); forall i :: 0 <= i < |cs| ==> cs[i].id != self
  {
    ContentsPlaced(self, k, h, n);
    var cs := Contents(self, k, h, n);
    forall i | 0 <= i < |cs|
      ensures cs[i].id != self
    {
      assert Placed(self, h, n, cs[i]);
    }
  }

  /** No id appears twice in the table. */
  lemma {:induction false} ContentsDistinct(self: ID, k: nat, h: seq<Peer>, n: nat)
    ensures Distinct(Contents(self, k, h, n))
  {
    if n > 0 {
      ContentsDistinct(self, k, h, n - 1);
      ContentsPlaced(self, k, h, n - 1);
      BucketSound(self, k, n - 1, h);
      Disjoint(self, n - 1, Contents(self, k, h, n - 1), Bucket(self, k, n - 1, h));
    }
  }

  /** The buckets bs are those of the history h. */
  ghost predicate Holds(self: ID, k: nat, h: seq<Peer>, bs: seq<seq<Peer>>) {
    |bs| == 128 && forall bi: nat | bi < 128 :: bs[bi] == Bucket(self, k, bi, h)
  }

  lemma SightingIgnored(self: ID, k: nat, h: seq<Peer>, bs: seq<seq<Peer>>, c: Peer)
    requires k > 0 && Holds(self, k, h, bs) && (c.id == self || c.id == Zero())
    ensures Holds(self, k, h + [c], bs)
  {
    forall bi: nat | bi < 128
      ensures bs[bi] == Bucket(self, k, bi, h + [c])
    {
      BucketStep(self, k, bi, h, c);
    }
  }

  lemma SightingKept(self: ID, k: nat, h: seq<Peer>, bs: seq<seq<Peer>>, c: Peer)
    requires k > 0 && Holds(self, k, h, bs) && c.id != self && c.id != Zero()
    ensures 0 <= BucketOf(self, c.id) && Distinct(bs[BucketOf(self, c.id)])
    ensures var bi := BucketOf(self, c.id); Holds(self, k, h + [c], bs[bi := Sighted(bs[bi], c, k)])
  {
    BucketIsTopBit(self, c.id);
    var own := BucketOf(self, c.id);
    BucketSound(self, k, own, h);
    var bs' := bs[own := Sighted(bs[own], c, k)];
    forall bi: nat | bi < 128
      ensures bs'[bi] == Bucket(self, k, bi, h + [c])
    {
      BucketStep(self, k, bi, h, c);
    }
  }

  lemma Disjoint(self: ID, n: nat, low: seq<Peer>, high: seq<Peer>)
    requires Distinct(low) && Distinct(high)
    requires forall c: Peer | c in low :: BucketOf(self, c.id) < n
    requires forall c | c in high :: BucketOf(self, c.id) == n
    ensures Distinct(low + high)
  {
    forall i, j | 0 <= i < |low| && 0 <= j < |high|
      ensures low[i].id != high[j].id
    {
      assert low[i] in low && high[j] in high;
    }
  }

  function ByDistance(target: ID): (ID, ID) -> bool { (a: ID, b: ID) => Closer(target, a, b) }

  lemma {:induction false} DistanceOrders(target: ID)
    ensures StrictOrder(ByDistance(target))
  {
    var less := ByDistance(target);
    forall a: ID
      ensures !less(a, a)
    {
      CloserIrreflexive(target, a);
    }
    forall a: ID, b: ID, c: ID | less(a, b) && less(b, c)
      ensures less(a, c)
    {
      CloserTransitive(target, a, b, c);
    }
    forall a: ID, b: ID | a != b
      ensures less(a, b) || less(b, a)
    {
      CloserTotal(target, a, b);
    }
  }

  class RoutingTable {
    const self: ID
    const k: nat
    var buckets: array<seq<Peer>>
    /** Every sighting reported so far. */
    ghost var history: seq<Peer>

    ghost predicate Valid()
      reads this, buckets
    {
      k > 0 && buckets.Length == 128 && Holds(self, k, history, buckets[..])
    }

    constructor (self: ID, k: int)
      ensures Valid() && history == [] && this.self == self && this.k == (if k <= 0 then DEFAULT_K else k)
      ensures fresh(buckets)
    {
      this.self := self;
      this.k := if k <= 0 then DEFAULT_K else k;
      buckets := new seq<Peer>[128](_ => []);
      history := [];
    }

    method Update(c: Peer)
      requires Valid()
      modifies this`history, buckets
      ensures Valid() && history == old(history) + [c]
    {
      history := history + [c];
      var zero := IsZero(c.id);
      if c.id == self || zero {
        SightingIgnored(self, k, old(history), buckets[..], c);
        return;
      }
      var bi := BucketIndex(self, c.id);
      if bi < 0 {
        BucketIsTopBit(self, c.id);
        assert false;
        return;
      }
      SightingKept(self, k, old(history), buckets[..], c);
      var b := Sight(buckets[bi], c, k);
      buckets[bi] := b;
      assert buckets[..] == old(buckets[..])[bi := b];
    }

    /** All contacts, bucket by bucket. */
    method Gather() returns (all: seq<Peer>)
      requires Valid()
      ensures all == Contents(self, k, history, 128)
    {
      all := [];
      for i := 0 to 128
        invariant all == Contents(self, k, history, i)
      {
        all := all + buckets[i];
      }
    }

    ghost function Table(): seq<Peer>
      reads this
    {
      Contents(self, k, history, 128)
    }

    /** The count closest contacts of the table; a negative count asks for all of them. */
    method Closest(target: ID, count: int) returns (r: seq<Peer>)
      requires Valid()
      ensures IsTop(ByDistance(target), if count >= 0 then count else |Table()|, Known(self, Table()), r)
      ensures self !in Known(self, Table())
    {
      var all := Gather();
      ContentsDistinct(self, k, history, 128);
      ContentsNotSelf(self, k, history, 128);
      DistanceOrders(target);
      r := SortSlice(ByDistance(target), all);
      assert |r| == |all| by { assert |multiset(r)| == |multiset(all)|; }
      TopOfAll(ByDistance(target), self, if count >= 0 then count else |all|, all, r);
      if count >= 0 && |r| > count { r := r[..count]; }
    }

    /** The iterative lookup. query answers each probe; rounds is the trace of probes. */
    method Lookup(target: ID, k: int, alpha: int, maxRounds: int, query: Peer -> seq<Peer>)
      returns (shortlist: seq<Peer>, rounds: seq<Round<ID>>)
      requires Valid()
      ensures var width := if k <= 0 then this.k else k;
        var probes := if alpha <= 0 then DEFAULT_ALPHA else alpha;
        var cap := if maxRounds <= 0 then DEFAULT_MAX_ROUNDS else maxRounds;
        Converged(ByDistance(target), self, Table(), width, probes, cap, query, shortlist, rounds)
    {
      var width := if k <= 0 then this.k else k;
      var probes := if alpha <= 0 then DEFAULT_ALPHA else alpha;
      var cap := if maxRounds <= 0 then DEFAULT_MAX_ROUNDS else maxRounds;
      shortlist := Closest(target, width);
      DistanceOrders(target);
      ghost var known := Known(self, Table());
      shortlist, rounds := Iterate(ByDistance(target), self, known, shortlist, width, probes, cap, query);
      Converges(ByDistance(target), self, Table(), width, probes, cap, query, shortlist, rounds);
    }
  }
}
