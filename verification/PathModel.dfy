/** Announce handling of one node (internal/discovery/announce.go): the path table, the flood
    dedup set, and what a node does with an announce or a path request. Node identifiers and
    link addresses are one type: both are only compared, and a next hop names the peer an
    announce was heard from. */
module PathModel {
  import opened Basics

  type Node = nat

  /** An authentic announce (key binding and signature hold). hops is the unsigned byte that
      forwarders rewrite. */
  datatype Announce = Announce(dest: Node, ts: int, nonce: nat, hops: nat)

  datatype Entry = Entry(nextHop: Node, hops: nat, lastSeen: int, originTs: int, ann: Announce)

  type Table = map<Node, Entry>

  datatype Key = AnnounceKey(dest: Node, nonce: nat) | RequestKey(dest: Node, nonce: nat)

  const HOP_MAX: nat := 128
  const REQUEST_HOP_MAX: nat := 128
  const MAX_PATHS: nat := 4096
  const DEDUP_TTL: int := 300_000_000_000
  const DEDUP_PRUNE: nat := 8192

  // ---- path table ---------------------------------------------------------------

  /** Whether e replaces what the table holds for dest: a newer generation, or the same one
      over strictly fewer hops. */
  predicate Improves(t: Table, dest: Node, e: Entry) {
    dest !in t || e.originTs > t[dest].originTs || (e.originTs == t[dest].originTs && e.hops < t[dest].hops)
  }

  function Refused(t: Table, dest: Node, e: Entry): Table
    requires dest in t
  {
    if e.originTs < t[dest].originTs then t else t[dest := t[dest].(lastSeen := e.lastSeen)]
  }

  predicate IsOldest(t: Table, k: Node) { k in t && forall j | j in t :: t[k].lastSeen <= t[j].lastSeen }

  /** t' is a possible table after offering e for dest; a table over its cap loses an entry
      seen least recently. */
  ghost predicate Updated(t: Table, max: nat, dest: Node, e: Entry, t': Table, stored: bool) {
    && stored == Improves(t, dest, e)
    && if !stored then t' == Refused(t, dest, e)
       else if |t[dest := e]| <= max then t' == t[dest := e]
       else exists k :: IsOldest(t[dest := e], k) && t' == t[dest := e] - {k}
  }

  // ---- dedup set ------------------------------------------------------------------

  predicate Recent<K>(seen: map<K, int>, key: K, now: int, ttl: int) { key in seen && now - seen[key] < ttl }

  /** The set after observing key: unchanged for a repeat, otherwise key is recorded at now. */
  function Observed<K>(seen: map<K, int>, key: K, now: int, ttl: int): map<K, int> {
    if Recent(seen, key, now, ttl) then seen
    else if |seen| > DEDUP_PRUNE then Pruned(seen, now, ttl)[key := now]
    else seen[key := now]
  }

  function Pruned<K>(seen: map<K, int>, now: int, ttl: int): map<K, int> {
    map k | k in seen && now - seen[k] < ttl :: seen[k]
  }

  // ---- one node ---------------------------------------------------------------------

  datatype State = State(table: Table, seen: map<Key, int>)

  function Learned(from: Node, ap: Announce, now: int): Entry { Entry(from, ap.hops, now, ap.ts, ap) }

  /** What node self does with announce ap heard from a peer. */
  ghost predicate HandleAnnounce(self: Node, transport: bool, st: State, from: Node, ap: Announce, now: int,
                                 st': State, forwarded: Option<Announce>)
  {
    var key := AnnounceKey(ap.dest, ap.nonce);
    if ap.dest == self then st' == st && forwarded == None
    else if Recent(st.seen, key, now, DEDUP_TTL) then st' == st && forwarded == None
    else
      && st'.seen == Observed(st.seen, key, now, DEDUP_TTL)
      && var stored := Improves(st.table, ap.dest, Learned(from, ap, now));
      && Updated(st.table, MAX_PATHS, ap.dest, Learned(from, ap, now), st'.table, stored)
      && forwarded == if stored && transport && ap.hops + 1 <= HOP_MAX then Some(ap.(hops := ap.hops + 1)) else None
  }

  /** The announce re-flooded from a cached entry; the hop byte wraps. */
  function CachedAnswer(e: Entry): Announce { e.ann.(hops := (e.hops + 1) % 256) }

  /** What node self answers to a path request for dest; own is the announce it would build
      about itself. */
  function HandleRequest(self: Node, st: State, dest: Node, nonce: nat, own: Announce, now: int)
    : (State, Option<Announce>)
  {
    var key := RequestKey(dest, nonce);
    if Recent(st.seen, key, now, DEDUP_TTL) then (st, None)
    else
      var st' := st.(seen := Observed(st.seen, key, now, DEDUP_TTL));
      if dest == self then (st', Some(own))
      else if dest in st.table then (st', Some(CachedAnswer(st.table[dest])))
      else (st', None)
  }
}

/** The mutable objects behind PathModel. */
module PathObjects {
  import opened Basics
  import opened PathModel

  class PathTable {
    var entries: Table
    const max: nat

    constructor (max: nat)
      ensures entries == map[] && this.max == max
    {
      entries := map[];
      this.max := max;
    }

    method Update(dest: Node, e: Entry) returns (stored: bool)
      modifies this`entries
      ensures Updated(old(entries), max, dest, e, entries, stored)
    {
      if dest in entries {
        var cur := entries[dest];
        if e.originTs < cur.originTs { return false; }
        if e.originTs == cur.originTs && e.hops >= cur.hops {
          entries := entries[dest := cur.(lastSeen := e.lastSeen)];
          return false;
        }
      }
      entries := entries[dest := e];
      if |entries| > max { EvictOldest(); }
      return true;
    }

    /** Drops one entry seen least recently. */
    method EvictOldest()
      requires entries != map[]
      modifies this`entries
      ensures exists k :: IsOldest(old(entries), k) && entries == old(entries) - {k}
    {
      var todo := entries.Keys;
      var oldest :| oldest in todo;
      todo := todo - {oldest};
      while todo != {}
        invariant todo <= entries.Keys && oldest in entries && oldest !in todo
        invariant forall j | j in entries && j !in todo :: entries[oldest].lastSeen <= entries[j].lastSeen
        decreases |todo|
      {
        var k :| k in todo;
        if entries[k].lastSeen < entries[oldest].lastSeen { oldest := k; }
        todo := todo - {k};
      }
      assert IsOldest(entries, oldest);
      entries := entries - {oldest};
    }
  }

  class DedupSet<K(==)> {
    var seen: map<K, int>
    const ttl: int

    constructor (ttl: int)
      ensures seen == map[] && this.ttl == ttl
    {
      seen := map[];
      this.ttl := ttl;
    }

    /** Whether key was seen within the ttl; records it otherwise. */
    method Observe(key: K, now: int) returns (repeated: bool)
      modifies this`seen
      ensures repeated == Recent(old(seen), key, now, ttl)
      ensures seen == Observed(old(seen), key, now, ttl)
    {
      if key in seen && now - seen[key] < ttl { return true; }
      if |seen| > DEDUP_PRUNE { Prune(now); }
      seen := seen[key := now];
      return false;
    }

    method Prune(now: int)
      modifies this`seen
      ensures seen == Pruned(old(seen), now, ttl)
    {
      ghost var was := seen;
      var todo := seen.Keys;
      while todo != {}
        invariant todo <= seen.Keys <= was.Keys
        invariant forall k :: k in seen ==> seen[k] == was[k]
        invariant forall k :: k in was && k !in todo ==> (k in seen <==> now - was[k] < ttl)
        decreases |todo|
      {
        var k :| k in todo;
        if now - seen[k] >= ttl { seen := seen - {k}; }
        todo := todo - {k};
      }
    }
  }

  class Discovery {
    const self: Node
    const transport: bool
    const paths: PathTable
    const seenAnn: DedupSet<Key>

    ghost function Model(): State
      reads paths, seenAnn
    {
      State(paths.entries, seenAnn.seen)
    }

    ghost predicate Valid() { paths.max == MAX_PATHS && seenAnn.ttl == DEDUP_TTL }

    constructor (self: Node, transport: bool)
      ensures Valid() && fresh(paths) && fresh(seenAnn) && Model() == State(map[], map[])
    {
      this.self, this.transport := self, transport;
      paths := new PathTable(MAX_PATHS);
      seenAnn := new DedupSet<Key>(DEDUP_TTL);
    }

    /** Learns from an announce heard from a peer and decides whether to flood it on. */
    method OnAnnounce(from: Node, ap: Announce, now: int) returns (stored: bool, forwarded: Option<Announce>)
      requires Valid()
      modifies paths, seenAnn
      ensures HandleAnnounce(self, transport, old(Model()), from, ap, now, Model(), forwarded)
      ensures stored <==>
              && ap.dest != self && !Recent(old(Model()).seen, AnnounceKey(ap.dest, ap.nonce), now, DEDUP_TTL)
              && Improves(old(Model()).table, ap.dest, Learned(from, ap, now))
    {
      if ap.dest == self { return false, None; }
      var repeated := seenAnn.Observe(AnnounceKey(ap.dest, ap.nonce), now);
      if repeated { return false, None; }
      stored := paths.Update(ap.dest, Entry(from, ap.hops, now, ap.ts, ap));
      if stored && transport && ap.hops + 1 <= HOP_MAX {
        return stored, Some(ap.(hops := ap.hops + 1));
      }
      return stored, None;
    }

    /** Answers a path request from a fresh self-announce or from the cache; one it cannot
        answer a transport floods on, with the hop count in forwarded. */
    method OnRequest(dest: Node, nonce: nat, hops: nat, own: Announce, now: int)
      returns (answer: Option<Announce>, forwarded: Option<nat>)
      requires Valid()
      modifies seenAnn
      ensures (Model(), answer) == HandleRequest(self, old(Model()), dest, nonce, own, now)
      ensures forwarded ==
              if && !Recent(old(Model()).seen, RequestKey(dest, nonce), now, DEDUP_TTL) && answer == None
                 && transport && hops < REQUEST_HOP_MAX
              then Some(hops + 1) else None
    {
      var repeated := seenAnn.Observe(RequestKey(dest, nonce), now);
      if repeated { return None, None; }
      if dest == self { return Some(own), None; }
      if dest in paths.entries {
        var e := paths.entries[dest];
        return Some(e.ann.(hops := (e.hops + 1) % 256)), None;
      }
      if transport && hops + 1 <= REQUEST_HOP_MAX { return None, Some(hops + 1); }
      return None, None;
    }
  }
}
