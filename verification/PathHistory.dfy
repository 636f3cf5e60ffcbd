/** The path table against the history of what it was offered (internal/discovery/announce.go:56-98).
    Whatever was evicted in between, the entry for a destination is the best of the offers since
    the table last had none: the newest generation, over the fewest hops, the first of equals. */
module PathHistory {
  import opened Basics
  import opened PathModel

  datatype Offer = Offer(dest: Node, e: Entry, stored: bool)

  /** The tables ts result from the offers os one after the other. */
  ghost predicate Updates(max: nat, ts: seq<Table>, os: seq<Offer>) {
    && |ts| == |os| + 1
    && forall k: nat | k < |os| :: OfferedAt(max, ts, os, k)
  }

  ghost predicate OfferedAt(max: nat, ts: seq<Table>, os: seq<Offer>, k: nat)
    requires |ts| == |os| + 1 && k < |os|
  {
    Updated(ts[k], max, os[k].dest, os[k].e, ts[k + 1], os[k].stored)
  }

  /** A newer generation, or the same one over fewer hops. */
  predicate Beats(a: Entry, b: Entry) { a.originTs > b.originTs || (a.originTs == b.originTs && a.hops < b.hops) }

  /** Offer k for d is beaten by no offer for d from m up to n, and by an equal one only later. */
  ghost predicate IsBest(os: seq<Offer>, d: Node, m: nat, n: nat, k: nat)
    requires n <= |os|
  {
    && m <= k < n && os[k].dest == d
    && (forall j: nat | m <= j < n && os[j].dest == d :: !Beats(os[j].e, os[k].e))
    && (forall j: nat | m <= j < k && os[j].dest == d :: Beats(os[k].e, os[j].e))
  }

  /** Offer k is the last for d of generation ts from m up to n. */
  ghost predicate IsLatest(os: seq<Offer>, d: Node, m: nat, n: nat, ts: int, k: nat)
    requires n <= |os|
  {
    && m <= k < n && os[k].dest == d && os[k].e.originTs == ts
    && (forall j: nat | k < j < n && os[j].dest == d :: os[j].e.originTs != ts)
  }

  /** The table had nothing for d at m and has had something ever since. */
  ghost predicate HeldSince(ts: seq<Table>, d: Node, m: nat, n: nat)
    requires m < n < |ts|
  {
    d !in ts[m] && forall k: nat | m < k <= n :: d in ts[k]
  }

  /** An offer for another destination leaves an entry alone unless it evicts it; one that is the
      first for d is stored as it is. */
  lemma OfferStep(t: Table, max: nat, o: Offer, t': Table, d: Node)
    requires Updated(t, max, o.dest, o.e, t', o.stored) && d in t'
    ensures o.dest != d ==> d in t && t'[d] == t[d]
    ensures d !in t ==> o.dest == d && t'[d] == o.e && o.stored
    ensures o.dest == d && d in t ==>
              && (o.stored <==> Beats(o.e, t[d]))
              && t'[d] == if Beats(o.e, t[d]) then o.e
                          else if o.e.originTs == t[d].originTs then t[d].(lastSeen := o.e.lastSeen)
                          else t[d]
  {
  }

  /** The entry is the best offer, seen when its generation was last offered. */
  lemma {:induction false} EntryIsBest(max: nat, ts: seq<Table>, os: seq<Offer>, d: Node, m: nat, n: nat)
    returns (k: nat, l: nat)
    requires Updates(max, ts, os) && m < n <= |os| && HeldSince(ts, d, m, n)
    ensures IsBest(os, d, m, n, k) && IsLatest(os, d, m, n, os[k].e.originTs, l)
    ensures ts[n][d] == os[k].e.(lastSeen := os[l].e.lastSeen)
  {
    var o := os[n - 1];
    assert OfferedAt(max, ts, os, n - 1);
    OfferStep(ts[n - 1], max, o, ts[n], d);
    if n - 1 == m {
      k, l := m, m;
    } else {
      k, l := EntryIsBest(max, ts, os, d, m, n - 1);
      if o.dest == d {
        if Beats(o.e, ts[n - 1][d]) {
          k, l := n - 1, n - 1;
        } else if o.e.originTs == ts[n - 1][d].originTs {
          l := n - 1;
        }
      }
    }
  }

  /** An offer is stored exactly if the table has nothing for its destination or it beats every
      offer since it had nothing. */
  lemma {:induction false} StoredIffBeatsAll(max: nat, ts: seq<Table>, os: seq<Offer>, n: nat, m: nat)
    requires Updates(max, ts, os) && n < |os|
    ensures os[n].dest !in ts[n] ==> os[n].stored
    ensures m < n && HeldSince(ts, os[n].dest, m, n) ==>
              (os[n].stored <==> forall j: nat | m <= j < n && os[j].dest == os[n].dest :: Beats(os[n].e, os[j].e))
  {
    var o := os[n];
    assert OfferedAt(max, ts, os, n);
    if m < n && HeldSince(ts, o.dest, m, n) {
      var k, l := EntryIsBest(max, ts, os, o.dest, m, n);
      assert ts[n][o.dest].originTs == os[k].e.originTs && ts[n][o.dest].hops == os[k].e.hops;
      assert o.stored <==> Beats(o.e, os[k].e);
      forall j: nat | m <= j < n && os[j].dest == o.dest && Beats(o.e, os[k].e)
        ensures Beats(o.e, os[j].e)
      {
        assert !Beats(os[j].e, os[k].e);
      }
    }
  }

  /** As long as there is room, whatever was offered is held. */
  lemma {:induction false} HeldIffOffered(max: nat, ts: seq<Table>, os: seq<Offer>, n: nat, d: Node)
    requires Updates(max, ts, os) && n <= |os| && forall k: nat | k < n :: |ts[k]| < max
    ensures d in ts[n] <==> d in ts[0] || exists j: nat :: j < n && os[j].dest == d
  {
    if n > 0 {
      HeldIffOffered(max, ts, os, n - 1, d);
      assert OfferedAt(max, ts, os, n - 1) && |ts[n - 1]| < max;
      RoomKeepsAll(ts[n - 1], max, os[n - 1], ts[n]);
    }
  }

  lemma RoomKeepsAll(t: Table, max: nat, o: Offer, t': Table)
    requires Updated(t, max, o.dest, o.e, t', o.stored) && |t| < max
    ensures t'.Keys == t.Keys + {o.dest}
  {
    assert t[o.dest := o.e].Keys == t.Keys + {o.dest};
    assert |t[o.dest := o.e].Keys| <= |t.Keys| + 1;
  }

  /** Over its cap the table gives up an entry, and none that was seen later than one it keeps. */
  lemma {:induction false} EvictsLeastRecent(t: Table, max: nat, o: Offer, t': Table, d: Node, x: Node)
    requires Updated(t, max, o.dest, o.e, t', o.stored) && |t| <= max
    ensures |t'| <= max
    ensures d in t && d !in t' && x in t' ==> |t| == max && t[d].lastSeen <= t'[x].lastSeen && o.stored
  {
    var t1 := t[o.dest := o.e];
    if !o.stored {
      assert t'.Keys == t.Keys;
      assert |t'| == |t'.Keys| == |t.Keys| == |t|;
    } else if |t1| > max {
      var k :| IsOldest(t1, k) && t' == t1 - {k};
      OneEntryOver(t, o.dest, o.e, max, k);
    }
  }

  lemma OneEntryOver(t: Table, dest: Node, e: Entry, max: nat, k: Node)
    requires |t| <= max < |t[dest := e]| && k in t[dest := e]
    ensures dest !in t && |t| == max && |t[dest := e] - {k}| == max
  {
    var t1 := t[dest := e];
    assert t1.Keys == t.Keys + {dest};
    assert |t1| == |t1.Keys| && |t| == |t.Keys|;
    assert (t1 - {k}).Keys == t1.Keys - {k};
    assert |t1 - {k}| == |(t1 - {k}).Keys|;
  }

  // ---- the dedup set ---------------------------------------------------------------------------

  datatype Sighting<K> = Sighting(key: K, now: int, repeated: bool)

  ghost predicate SightedAt<K(!new)>(ttl: int, ss: seq<map<K, int>>, os: seq<Sighting<K>>, k: nat)
    requires |ss| == |os| + 1 && k < |os|
  {
    && os[k].repeated == Recent(ss[k], os[k].key, os[k].now, ttl)
    && ss[k + 1] == Observed(ss[k], os[k].key, os[k].now, ttl)
  }

  /** The sets ss result from the sightings os, by a clock that does not go back. */
  ghost predicate Sightings<K(!new)>(ttl: int, ss: seq<map<K, int>>, os: seq<Sighting<K>>) {
    && |ss| == |os| + 1 && ss[0] == map[]
    && (forall k: nat | k < |os| :: SightedAt(ttl, ss, os, k))
    && (forall j, k :: 0 <= j < k < |os| ==> os[j].now <= os[k].now)
  }

  /** Sighting j of x was taken as new. */
  predicate NewAt<K(==)>(os: seq<Sighting<K>>, j: nat, x: K) { j < |os| && os[j].key == x && !os[j].repeated }

  /** What the set knows of x after n sightings: the last one taken as new, unless it expired. */
  ghost predicate Remembers<K(!new)>(ttl: int, ss: seq<map<K, int>>, os: seq<Sighting<K>>, n: nat, x: K)
    requires n < |ss| == |os| + 1
  {
    && (x in ss[n] ==> exists j: nat :: j < n && NewAt(os, j, x) && os[j].now == ss[n][x])
    && (forall j: nat | j < n && NewAt(os, j, x) ::
          (x in ss[n] && os[j].now <= ss[n][x]) || os[n - 1].now - os[j].now >= ttl)
  }

  lemma {:induction false} SetRemembers<K(!new)>(ttl: int, ss: seq<map<K, int>>, os: seq<Sighting<K>>, n: nat, x: K)
    requires Sightings(ttl, ss, os) && n <= |os|
    ensures Remembers(ttl, ss, os, n, x)
  {
    if n > 0 {
      SetRemembers(ttl, ss, os, n - 1, x);
      assert SightedAt(ttl, ss, os, n - 1);
      if x in ss[n] && !(x in ss[n - 1] && ss[n][x] == ss[n - 1][x]) { assert NewAt(os, n - 1, x); }
    }
  }

  /** A sighting is reported as a repeat exactly if one taken as new came less than one lifetime
      before it; repeats do not prolong the lifetime. */
  lemma {:induction false} RepeatIffRecent<K(!new)>(ttl: int, ss: seq<map<K, int>>, os: seq<Sighting<K>>, n: nat)
    requires Sightings(ttl, ss, os) && n < |os|
    ensures os[n].repeated <==> exists j: nat :: j < n && NewAt(os, j, os[n].key) && os[n].now - os[j].now < ttl
  {
    SetRemembers(ttl, ss, os, n, os[n].key);
    assert SightedAt(ttl, ss, os, n);
  }

  /** A set that has outgrown its threshold keeps nothing that expired. */
  lemma {:induction false} FullSetForgets<K(!new)>(seen: map<K, int>, key: K, now: int, ttl: int, x: K)
    requires |seen| > 8192 && !Recent(seen, key, now, ttl) && x in Observed(seen, key, now, ttl)
    ensures x == key || Recent(seen, x, now, ttl)
  {
  }
}
