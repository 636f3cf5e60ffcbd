/** Lists of contacts, whatever the ids are: removing an id, and the last sighting of each. */
module Contacts {
  datatype Contact<+K> = Contact(id: K, address: string, port: bv16)

  predicate HasId<K(==)>(cs: seq<Contact<K>>, id: K) { exists i :: 0 <= i < |cs| && cs[i].id == id }

  predicate Distinct<K(==)>(cs: seq<Contact<K>>) { forall i, j :: 0 <= i < j < |cs| ==> cs[i].id != cs[j].id }

  /** The last sighting of each id, in the order of those sightings. */
  function Latest<K(==)>(h: seq<Contact<K>>): seq<Contact<K>> {
    if h == [] then []
    else if HasId(h[1..], h[0].id) then Latest(h[1..])
    else [h[0]] + Latest(h[1..])
  }

  function LastK<K(==)>(k: nat, cs: seq<Contact<K>>): seq<Contact<K>> { if |cs| <= k then cs else cs[|cs| - k..] }

  /** What one sighting does to the bucket it belongs to. */
  function Sighted<K(==)>(b: seq<Contact<K>>, c: Contact<K>, k: nat): seq<Contact<K>> {
    if HasId(b, c.id) then Without(b, c.id) + [c]
    else if |b| >= k > 0 then b[1..] + [c]
    else b + [c]
  }

  function Without<K(==)>(cs: seq<Contact<K>>, id: K): seq<Contact<K>> {
    if cs == [] then [] else (if cs[0].id == id then [] else [cs[0]]) + Without(cs[1..], id)
  }

  // ---- removing an id ------------------------------------------------------------------------------

  lemma {:induction false} WithoutAbsent<K>(cs: seq<Contact<K>>, id: K)
    requires !HasId(cs, id)
    ensures Without(cs, id) == cs
  {
    if cs != [] {
      TailLacks(cs, id);
      WithoutAbsent(cs[1..], id);
    }
  }

  lemma TailLacks<K>(cs: seq<Contact<K>>, id: K)
    requires cs != []
    ensures HasId(cs, id) <==> cs[0].id == id || HasId(cs[1..], id)
  {
    if HasId(cs[1..], id) {
      var i :| 0 <= i < |cs[1..]| && cs[1..][i].id == id;
      assert cs[i + 1].id == id;
    }
    if HasId(cs, id) && cs[0].id != id {
      var i :| 0 <= i < |cs| && cs[i].id == id;
      assert cs[1..][i - 1].id == id;
    }
  }

  lemma {:induction false} WithoutPlus<K>(a: seq<Contact<K>>, b: seq<Contact<K>>, id: K)
    ensures Without(a + b, id) == Without(a, id) + Without(b, id)
  {
    if a == [] {
      assert a + b == b;
    } else {
      assert (a + b)[1..] == a[1..] + b;
      WithoutPlus(a[1..], b, id);
    }
  }

  lemma WithoutOne<K>(x: Contact<K>)
    ensures Without([x], x.id) == []
  {
    assert [x][1..] == [];
  }

  lemma WithoutBetween<K>(a: seq<Contact<K>>, x: Contact<K>, b: seq<Contact<K>>)
    requires !HasId(a, x.id) && !HasId(b, x.id)
    ensures Without(a + [x] + b, x.id) == a + b
  {
    WithoutPlus(a + [x], b, x.id);
    WithoutPlus(a, [x], x.id);
    WithoutOne(x);
    WithoutAbsent(a, x.id);
    WithoutAbsent(b, x.id);
  }

  lemma WithoutAt<K>(cs: seq<Contact<K>>, i: nat)
    requires Distinct(cs) && i < |cs|
    ensures Without(cs, cs[i].id) == cs[..i] + cs[i + 1..]
  {
    OthersLack(cs, i);
    WithoutBetween(cs[..i], cs[i], cs[i + 1..]);
    SplitAt(cs, i);
  }

  lemma SplitAt<K>(cs: seq<Contact<K>>, i: nat)
    requires i < |cs|
    ensures cs[..i] + [cs[i]] + cs[i + 1..] == cs
  {
  }

  lemma OthersLack<K>(cs: seq<Contact<K>>, i: nat)
    requires Distinct(cs) && i < |cs|
    ensures !HasId(cs[..i], cs[i].id) && !HasId(cs[i + 1..], cs[i].id)
  {
  }

  // ---- the last sightings ------------------------------------------------------------------------

  lemma {:induction false} LatestSnoc<K>(h: seq<Contact<K>>, c: Contact<K>)
    ensures Latest(h + [c]) == Without(Latest(h), c.id) + [c]
  {
    if h == [] {
      assert (h + [c])[1..] == [];
    } else {
      assert (h + [c])[1..] == h[1..] + [c];
      LatestSnoc(h[1..], c);
      HasIdSnoc(h[1..], c, h[0].id);
      WithoutPlus([h[0]], Latest(h[1..]), c.id);
    }
  }

  lemma HasIdSnoc<K>(h: seq<Contact<K>>, c: Contact<K>, id: K)
    ensures HasId(h + [c], id) <==> HasId(h, id) || c.id == id
  {
    if HasId(h, id) {
      var i :| 0 <= i < |h| && h[i].id == id;
      assert (h + [c])[i].id == id;
    }
    assert (h + [c])[|h|].id == c.id;
  }

  /** Position i of h is the last sighting of its id. */
  predicate LastSighting<K(==)>(h: seq<Contact<K>>, i: nat) {
    i < |h| && forall j :: i < j < |h| ==> h[j].id != h[i].id
  }

  ghost predicate IsLastSighting<K>(h: seq<Contact<K>>, c: Contact<K>) {
    exists i: nat :: LastSighting(h, i) && h[i] == c
  }

  /** Latest holds exactly the last sighting of every id that was sighted. */
  lemma {:induction false} LatestAre<K>(h: seq<Contact<K>>, c: Contact<K>)
    ensures c in Latest(h) <==> IsLastSighting(h, c)
  {
    if h != [] {
      var rest := h[1..];
      LatestAre(rest, c);
      if IsLastSighting(rest, c) {
        var i: nat :| LastSighting(rest, i) && rest[i] == c;
        assert LastSighting(h, i + 1) && h[i + 1] == c;
      }
      if IsLastSighting(h, c) {
        var i: nat :| LastSighting(h, i) && h[i] == c;
        if i > 0 {
          assert LastSighting(rest, i - 1) && rest[i - 1] == c;
        } else {
          assert !HasId(rest, c.id);
        }
      }
      if !HasId(rest, h[0].id) { assert LastSighting(h, 0); }
    }
  }

  lemma {:induction false} LatestDistinct<K>(h: seq<Contact<K>>)
    ensures Distinct(Latest(h)) && forall c | c in Latest(h) :: c in h
  {
    if h != [] {
      LatestDistinct(h[1..]);
      forall i | 0 <= i < |Latest(h[1..])| && !HasId(h[1..], h[0].id)
        ensures Latest(h[1..])[i].id != h[0].id
      {
        var c := Latest(h[1..])[i];
        assert c in h[1..];
      }
    }
  }

  // ---- one sighting -----------------------------------------------------------------------------------

  lemma SightingOfKnown<K>(front: seq<Contact<K>>, b: seq<Contact<K>>, c: Contact<K>, i: nat, k: nat)
    requires !HasId(front, c.id) && Distinct(b) && i < |b| && b[i].id == c.id && |b| <= k && (|b| == k || front == [])
    ensures LastK(k, Without(front + b, c.id) + [c]) == Without(b, c.id) + [c]
  {
    WithoutPlus(front, b, c.id);
    WithoutAbsent(front, c.id);
    var rest := Without(b, c.id);
    assert |rest| == |b| - 1 by { WithoutAt(b, i); }
    LastKSuffix(k, front, rest + [c]);
    assert front + rest + [c] == front + (rest + [c]);
  }

  lemma SightingOfNew<K>(front: seq<Contact<K>>, b: seq<Contact<K>>, c: Contact<K>, k: nat)
    requires !HasId(b, c.id) && |b| <= k && k > 0 && (|b| == k || front == [])
    ensures LastK(k, Without(front + b, c.id) + [c]) == if |b| >= k then b[1..] + [c] else b + [c]
  {
    WithoutPlus(front, b, c.id);
    WithoutAbsent(b, c.id);
    if |b| == k { LastKMore(k, Without(front, c.id), b, c); }
  }

  /** Keeping the last k of the history is what a sighting's in-place update does. */
  lemma {:induction false} SightingStep<K>(latest: seq<Contact<K>>, c: Contact<K>, k: nat)
    requires Distinct(latest) && k > 0
    ensures LastK(k, Without(latest, c.id) + [c]) == Sighted(LastK(k, latest), c, k)
  {
    var b := LastK(k, latest);
    var front := latest[..|latest| - |b|];
    assert latest == front + b;
    if HasId(b, c.id) {
      var i :| 0 <= i < |b| && b[i].id == c.id;
      FrontLacks(latest, |front|, i);
      SliceDistinct(latest, |front|);
      SightingOfKnown(front, b, c, i, k);
    } else {
      SightingOfNew(front, b, c, k);
    }
  }

  lemma LastKSuffix<K>(k: nat, a: seq<Contact<K>>, b: seq<Contact<K>>)
    requires |b| <= k && (|b| == k || a == [])
    ensures LastK(k, a + b) == b
  {
  }

  lemma LastKMore<K>(k: nat, a: seq<Contact<K>>, b: seq<Contact<K>>, c: Contact<K>)
    requires |b| == k > 0
    ensures LastK(k, a + b + [c]) == b[1..] + [c]
  {
  }

  lemma SliceDistinct<K>(cs: seq<Contact<K>>, n: nat)
    requires Distinct(cs) && n <= |cs|
    ensures Distinct(cs[n..])
  {
  }

  lemma FrontLacks<K>(cs: seq<Contact<K>>, n: nat, i: nat)
    requires Distinct(cs) && n + i < |cs|
    ensures !HasId(cs[..n], cs[n..][i].id)
  {
  }

  /** Moves a known contact to the newest place, or admits a new one, evicting the oldest. */
  method Sight<K(==)>(b: seq<Contact<K>>, c: Contact<K>, k: nat) returns (r: seq<Contact<K>>)
    requires Distinct(b) && k > 0
    ensures r == Sighted(b, c, k)
  {
    for i := 0 to |b|
      invariant forall j :: 0 <= j < i ==> b[j].id != c.id
    {
      if b[i].id == c.id {
        WithoutAt(b, i);
        return b[..i] + b[i + 1..] + [c];
      }
    }
    r := b;
    if |r| >= k { r := r[1..]; }
    r := r + [c];
  }
}
