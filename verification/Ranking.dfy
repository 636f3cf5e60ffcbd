/** The k closest contacts of everything known, and why a list that is cut to k after every
    merge still holds them (internal/dht/dht.go:166-181, 226-262). Ids and their order are
    arbitrary here. */
module Ranking {
  import opened Basics
  import opened Contacts

  ghost predicate StrictOrder<K(!new)>(less: (K, K) -> bool) {
    && (forall a :: !less(a, a))
    && (forall a, b, c {:trigger less(a, b), less(b, c)} :: less(a, b) && less(b, c) ==> less(a, c))
    && (forall a, b {:trigger less(a, b)} :: less(a, b) || less(b, a) || a == b)
  }

  predicate Ordered<K>(less: (K, K) -> bool, cs: seq<Contact<K>>) {
    forall i, j :: 0 <= i < j < |cs| ==> less(cs[i].id, cs[j].id)
  }

  /** What is known after the given contacts were heard of in turn: an id keeps the contact it
      was first heard with, and self is never recorded. */
  function Learned<K(==)>(self: K, known: map<K, Contact<K>>, cs: seq<Contact<K>>): map<K, Contact<K>> {
    if cs == [] then known
    else
      var m, c := Learned(self, known, cs[..|cs| - 1]), cs[|cs| - 1];
      if c.id == self || c.id in m then m else m[c.id := c]
  }

  function Known<K(==)>(self: K, cs: seq<Contact<K>>): map<K, Contact<K>> { Learned(self, map[], cs) }

  /** k contacts are held and all of them are closer than id. */
  predicate Beaten<K>(less: (K, K) -> bool, k: nat, r: seq<Contact<K>>, id: K) {
    |r| == k && forall i :: 0 <= i < |r| ==> less(r[i].id, id)
  }

  predicate IsKnown<K(==)>(known: map<K, Contact<K>>, c: Contact<K>) { c.id in known && known[c.id] == c }

  /** r lists the k closest known contacts, closest first. */
  predicate IsTop<K(==)>(less: (K, K) -> bool, k: nat, known: map<K, Contact<K>>, r: seq<Contact<K>>) {
    && Ordered(less, r) && |r| <= k
    && (forall i :: 0 <= i < |r| ==> IsKnown(known, r[i]))
    && (forall id | id in known :: HasId(r, id) || Beaten(less, k, r, id))
  }

  // ---- the specification determines the list ----------------------------------------------------

  /** r and q agree below n. */
  predicate Agree<K(==)>(r: seq<Contact<K>>, q: seq<Contact<K>>, n: nat) {
    n <= |r| && n <= |q| && forall i :: 0 <= i < n ==> r[i] == q[i]
  }

  /** Where two lists first differ. */
  lemma FirstDifference<K>(r: seq<Contact<K>>, q: seq<Contact<K>>) returns (n: nat)
    ensures Agree(r, q, n) && (n < |r| && n < |q| ==> r[n] != q[n]) && (n == |r| == |q| ==> r == q)
  {
    n := 0;
    while n < |r| && n < |q| && r[n] == q[n]
      invariant Agree(r, q, n)
    {
      n := n + 1;
    }
  }

  lemma SameNext<K(!new)>(less: (K, K) -> bool, k: nat, known: map<K, Contact<K>>, r: seq<Contact<K>>,
                          q: seq<Contact<K>>, n: nat)
    requires StrictOrder(less) && IsTop(less, k, known, r) && IsTop(less, k, known, q) && n < |r| && n < |q|
    requires Agree(r, q, n)
    ensures r[n] == q[n]
  {
    NotCloser(less, k, known, r, q, n);
    NotCloser(less, k, known, q, r, n);
    assert IsKnown(known, r[n]) && IsKnown(known, q[n]);
    assert r[n].id == q[n].id;
  }

  lemma NotCloser<K(!new)>(less: (K, K) -> bool, k: nat, known: map<K, Contact<K>>, r: seq<Contact<K>>,
                           q: seq<Contact<K>>, n: nat)
    requires StrictOrder(less) && IsTop(less, k, known, r) && IsTop(less, k, known, q) && n < |r| && n < |q|
    requires Agree(r, q, n)
    ensures !less(r[n].id, q[n].id)
  {
    assert IsKnown(known, r[n]);
  }

  /** There is only one such list, so any sorting algorithm gives it. */
  lemma {:induction false} TopUnique<K(!new)>(less: (K, K) -> bool, k: nat, known: map<K, Contact<K>>,
                                              r: seq<Contact<K>>, q: seq<Contact<K>>)
    requires StrictOrder(less) && IsTop(less, k, known, r) && IsTop(less, k, known, q)
    ensures r == q
  {
    var n := FirstDifference(r, q);
    if n < |r| && n < |q| {
      SameNext(less, k, known, r, q, n);
    } else if n == |r| {
      NotLonger(less, k, known, r, q);
    } else {
      NotLonger(less, k, known, q, r);
    }
  }

  lemma NotLonger<K(!new)>(less: (K, K) -> bool, k: nat, known: map<K, Contact<K>>, r: seq<Contact<K>>,
                           q: seq<Contact<K>>)
    requires StrictOrder(less) && IsTop(less, k, known, r) && IsTop(less, k, known, q) && Agree(r, q, |r|)
    ensures |q| == |r|
  {
    var n: nat := |r|;
    if n < |q| { NextIsMissing(less, k, known, r, q, n); }
  }

  lemma NextIsMissing<K(!new)>(less: (K, K) -> bool, k: nat, known: map<K, Contact<K>>, r: seq<Contact<K>>,
                               q: seq<Contact<K>>, n: nat)
    requires StrictOrder(less) && IsTop(less, k, known, q) && n == |r| < |q| && Agree(r, q, n)
    ensures q[n].id in known && !HasId(r, q[n].id) && !Beaten(less, k, r, q[n].id)
  {
    assert IsKnown(known, q[n]);
  }

  // ---- sorting ---------------------------------------------------------------------------------------

  lemma OrderedDistinct<K(!new)>(less: (K, K) -> bool, cs: seq<Contact<K>>)
    requires StrictOrder(less) && Ordered(less, cs)
    ensures Distinct(cs)
  {
  }

  /** Inserts c into an ordered list. */
  method Insert<K(!new)>(less: (K, K) -> bool, cs: seq<Contact<K>>, c: Contact<K>) returns (r: seq<Contact<K>>)
    requires StrictOrder(less) && Ordered(less, cs) && !HasId(cs, c.id)
    ensures Ordered(less, r) && multiset(r) == multiset(cs) + multiset{c}
  {
    var p := |cs|;
    while p > 0 && less(c.id, cs[p - 1].id)
      invariant 0 <= p <= |cs| && forall j :: p <= j < |cs| ==> less(c.id, cs[j].id)
    {
      p := p - 1;
    }
    if p > 0 { assert less(cs[p - 1].id, c.id); }
    assert forall j :: 0 <= j < p ==> less(cs[j].id, c.id);
    r := InsertedAt(less, cs, c, p);
  }

  function InsertedAt<K>(ghost less: (K, K) -> bool, cs: seq<Contact<K>>, c: Contact<K>, p: nat): (r: seq<Contact<K>>)
    requires p <= |cs| && Ordered(less, cs)
    requires (forall j :: 0 <= j < p ==> less(cs[j].id, c.id)) && forall j :: p <= j < |cs| ==> less(c.id, cs[j].id)
    ensures Ordered(less, r) && multiset(r) == multiset(cs) + multiset{c}
  {
    assert cs == cs[..p] + cs[p..];
    cs[..p] + [c] + cs[p..]
  }

  lemma SameIds<K>(a: seq<Contact<K>>, b: seq<Contact<K>>, id: K)
    requires multiset(a) == multiset(b)
    ensures HasId(a, id) == HasId(b, id)
  {
    if HasId(a, id) {
      var i :| 0 <= i < |a| && a[i].id == id;
      assert a[i] in multiset(b);
    }
    if HasId(b, id) {
      var i :| 0 <= i < |b| && b[i].id == id;
      assert b[i] in multiset(a);
    }
  }

  /** Sorts a list without repeated ids by the given order. */
  method SortSlice<K(!new)>(less: (K, K) -> bool, cs: seq<Contact<K>>) returns (r: seq<Contact<K>>)
    requires StrictOrder(less) && Distinct(cs)
    ensures Ordered(less, r) && multiset(r) == multiset(cs)
  {
    r := [];
    for i := 0 to |cs|
      invariant Ordered(less, r) && multiset(r) == multiset(cs[..i])
    {
      OthersLack(cs, i);
      SameIds(r, cs[..i], cs[i].id);
      r := Insert(less, r, cs[i]);
      assert cs[..i + 1] == cs[..i] + [cs[i]];
    }
    assert cs[..|cs|] == cs;
  }

  // ---- merging and cutting --------------------------------------------------------------------------

  /** list is prev, the k closest so far, followed by contacts heard of since. What is known but
      not listed, or listed with another address than first heard, is beaten by prev. */
  predicate Merging<K(==)>(less: (K, K) -> bool, k: nat, known: map<K, Contact<K>>, prev: seq<Contact<K>>,
                           list: seq<Contact<K>>) {
    && Distinct(list) && prev <= list && Ordered(less, prev) && |prev| <= k
    && (forall i :: 0 <= i < |list| ==>
          list[i].id in known && (IsKnown(known, list[i]) || Beaten(less, k, prev, list[i].id)))
    && (forall id | id in known :: HasId(list, id) || Beaten(less, k, prev, id))
  }

  /** A contact beaten by k contacts of an ordered list is not among its first k. */
  lemma BeatenRank<K(!new)>(less: (K, K) -> bool, k: nat, prev: seq<Contact<K>>, sorted: seq<Contact<K>>, p: nat, id: K)
    requires StrictOrder(less) && Ordered(less, sorted) && Distinct(prev) && forall c | c in prev :: c in sorted
    requires p < |sorted| && Beaten(less, k, prev, id) && (id == sorted[p].id || less(id, sorted[p].id))
    ensures p >= k
  {
    forall i | 0 <= i < |prev|
      ensures prev[i] in sorted[..p]
    {
      assert prev[i] in sorted;
      var q :| 0 <= q < |sorted| && sorted[q] == prev[i];
      assert less(sorted[q].id, sorted[p].id);
      assert q < p;
      assert sorted[..p][q] == prev[i];
    }
    NoMoreThan(prev, sorted[..p]);
  }

  function Truncated<K>(k: nat, cs: seq<Contact<K>>): seq<Contact<K>> { if |cs| > k then cs[..k] else cs }

  lemma PrevInSorted<K>(prev: seq<Contact<K>>, list: seq<Contact<K>>, sorted: seq<Contact<K>>)
    requires prev <= list && multiset(sorted) == multiset(list) && Distinct(list)
    ensures Distinct(prev) && forall c | c in prev :: c in sorted
  {
    forall c | c in prev
      ensures c in sorted
    {
      assert c in list;
      assert c in multiset(list);
    }
  }

  lemma KeptAreKnown<K(!new)>(less: (K, K) -> bool, k: nat, known: map<K, Contact<K>>, prev: seq<Contact<K>>,
    list: seq<Contact<K>>, sorted: seq<Contact<K>>, i: nat)
    requires StrictOrder(less) && Merging(less, k, known, prev, list) && Ordered(less, sorted)
    requires multiset(sorted) == multiset(list) && i < |sorted| && i < k
    ensures IsKnown(known, sorted[i])
  {
    PrevInSorted(prev, list, sorted);
    assert sorted[i] in multiset(list);
    if Beaten(less, k, prev, sorted[i].id) { BeatenRank(less, k, prev, sorted, i, sorted[i].id); }
  }

  lemma LeftOutAreBeaten<K(!new)>(less: (K, K) -> bool, k: nat, known: map<K, Contact<K>>, prev: seq<Contact<K>>,
    list: seq<Contact<K>>, sorted: seq<Contact<K>>, id: K)
    requires StrictOrder(less) && Merging(less, k, known, prev, list) && Ordered(less, sorted)
    requires multiset(sorted) == multiset(list) && id in known
    ensures HasId(Truncated(k, sorted), id) || Beaten(less, k, Truncated(k, sorted), id)
  {
    var r := Truncated(k, sorted);
    SameIds(sorted, list, id);
    if HasId(list, id) {
      var p :| 0 <= p < |sorted| && sorted[p].id == id;
      assert p < |r| ==> r[p].id == id;
    } else {
      PrevInSorted(prev, list, sorted);
      NoMoreThan(prev, sorted);
      forall i | 0 <= i < |r|
        ensures less(r[i].id, id)
      {
        assert r[i] == sorted[i];
        if !less(r[i].id, id) { BeatenRank(less, k, prev, sorted, i, id); }
      }
    }
  }

  /** Sorting the merged list and cutting it to k gives the k closest of everything known. */
  lemma {:induction false} TopOfMerge<K(!new)>(less: (K, K) -> bool, k: nat, known: map<K, Contact<K>>,
                                               prev: seq<Contact<K>>, list: seq<Contact<K>>, sorted: seq<Contact<K>>)
    requires StrictOrder(less) && Merging(less, k, known, prev, list) && Ordered(less, sorted)
    requires multiset(sorted) == multiset(list)
    ensures IsTop(less, k, known, Truncated(k, sorted))
  {
    var r := Truncated(k, sorted);
    forall i | 0 <= i < |r|
      ensures IsKnown(known, r[i])
    {
      KeptAreKnown(less, k, known, prev, list, sorted, i);
    }
    forall id | id in known
      ensures HasId(r, id) || Beaten(less, k, r, id)
    {
      LeftOutAreBeaten(less, k, known, prev, list, sorted, id);
    }
  }

  /** Of contacts with different ids, none of them self, all are known and nothing else is. */
  lemma {:induction false} KnownAll<K(!new)>(self: K, cs: seq<Contact<K>>)
    requires Distinct(cs) && forall i :: 0 <= i < |cs| ==> cs[i].id != self
    ensures forall i :: 0 <= i < |cs| ==> IsKnown(Known(self, cs), cs[i])
    ensures self !in Known(self, cs) && forall id | id in Known(self, cs) :: HasId(cs, id)
  {
    if cs != [] {
      var n := |cs| - 1;
      KnownAll(self, cs[..n]);
      OthersLack(cs, n);
      assert cs == cs[..n] + [cs[n]];
      forall i | 0 <= i < n
        ensures IsKnown(Known(self, cs), cs[i])
      {
        assert cs[..n][i] == cs[i];
      }
      forall id | id in Known(self, cs)
        ensures HasId(cs, id)
      {
        HasIdSnoc(cs[..n], cs[n], id);
      }
    }
  }

  /** Sorted and cut, a whole table gives its k closest contacts. */
  lemma TopOfAll<K(!new)>(less: (K, K) -> bool, self: K, k: nat, all: seq<Contact<K>>, sorted: seq<Contact<K>>)
    requires StrictOrder(less) && Distinct(all) && forall i :: 0 <= i < |all| ==> all[i].id != self
    requires Ordered(less, sorted) && multiset(sorted) == multiset(all)
    ensures IsTop(less, k, Known(self, all), Truncated(k, sorted)) && self !in Known(self, all)
  {
    KnownAll(self, all);
    forall i | 0 <= i < |all|
      ensures all[i].id in Known(self, all)
    {
      assert IsKnown(Known(self, all), all[i]);
    }
    TopOfMerge(less, k, Known(self, all), [], all, sorted);
  }
}
