/** The relay's operations on its offline queues, each taken as one atomic step with disk writes
    that succeed (internal/transfer/storeforward.go:17-61, 119-229). */
module OfflineRelay {
  import opened OfflineStore

  class Relay {
    const storeForward: bool
    const ttl: int
    var offline: map<nat, seq<Pending>>
    var lastNum: nat
    var disk: map<Key, File>

    ghost function Now(): State
      reads this
    {
      State(offline, lastNum, disk)
    }

    /** A fresh process over an existing disk, before anything is loaded. */
    constructor (storeForward: bool, ttl: int, disk: map<Key, File>)
      ensures Now() == State(map[], 0, disk) && this.storeForward == storeForward && this.ttl == ttl
    {
      this.storeForward, this.ttl := storeForward, ttl;
      this.offline, this.lastNum, this.disk := map[], 0, disk;
    }

    method StoreOffline(n: nat, blob: nat, now: int)
      modifies this
      ensures Now() ==
              if storeForward && n != 0 then Stored(old(Now()), n, Pending(old(lastNum) + 1, blob, now + ttl))
              else old(Now())
    {
      if !storeForward || n == 0 { return; }
      lastNum := lastNum + 1;
      var p := Pending(lastNum, blob, now + ttl);
      var q := (if n in offline then offline[n] else []) + [p];
      var dropped: seq<Pending> := [];
      if |q| > MAX_PER_NODE {
        dropped := q[..|q| - MAX_PER_NODE];
        q := q[|q| - MAX_PER_NODE..];
      }
      offline := offline[n := q];
      disk := disk[Key(n, p.num) := File(p.blob, p.expiry)];
      ghost var saved := disk;
      for i := 0 to |dropped|
        invariant disk == saved - KeysOf(n, dropped[..i])
        modifies this`disk
      {
        assert dropped[..i + 1] == dropped[..i] + [dropped[i]];
        disk := disk - {Key(n, dropped[i].num)};
      }
      assert dropped[..|dropped|] == dropped;
    }

    method ClearOffline(n: nat)
      modifies this
      ensures Now() == Cleared(old(Now()), n)
    {
      offline := offline - {n};
      disk := map k | k in disk && k.node != n :: disk[k];
    }

    /** Hands a reconnected node what is held for it, in queue order and without the expired. */
    method FlushOffline(n: nat, now: int) returns (sent: seq<Pending>)
      modifies this
      ensures sent == Live(old(Now()).Queue(n), now) && Now() == Cleared(old(Now()), n)
    {
      var q := if n in offline then offline[n] else [];
      sent := [];
      for i := 0 to |q|
        invariant sent == Live(q[..i], now)
        modifies {}
      {
        assert q[..i + 1][..i] == q[..i];
        if q[i].expiry > now { sent := sent + [q[i]]; }
      }
      assert q[..|q|] == q;
      ClearOffline(n);
    }

    /** Dials a reachable node; arrives says which sends succeed. The queue is cleared only if
        every unexpired blob was sent. */
    method RedeliverTo(n: nat, now: int, arrives: Pending -> bool) returns (ok: bool)
      modifies this
      ensures ok <==> forall p | p in old(Now()).Queue(n) && p.expiry > now :: arrives(p)
      ensures Now() == if ok then Cleared(old(Now()), n) else old(Now())
    {
      var q := if n in offline then offline[n] else [];
      for i := 0 to |q|
        invariant forall j :: 0 <= j < i && q[j].expiry > now ==> arrives(q[j])
        modifies {}
      {
        if q[i].expiry > now && !arrives(q[i]) { return false; }
      }
      ClearOffline(n);
      return true;
    }

    /** Drops what has expired. */
    method ExpireOffline(now: int)
      requires Inv(Now())
      modifies this
      ensures Now() == Swept(old(Now()), now)
    {
      var todo := offline.Keys;
      var kept: map<nat, seq<Pending>> := map[];
      var gone: set<Key> := {};
      while todo != {}
        invariant Sweeping(offline, todo, now, kept, gone)
        decreases |todo|
        modifies {}
      {
        var n :| n in todo;
        var live, dead := SplitQueue(n, offline[n], now);
        SweepOne(offline, todo, now, kept, gone, n);
        if live != [] { kept := kept[n := live]; }
        gone := gone + dead;
        todo := todo - {n};
      }
      ExpiredFiles(Now(), now, gone);
      offline := kept;
      disk := disk - gone;
    }

    /** Loads what an earlier process left on disk. */
    method LoadOffline(now: int)
      requires offline == map[] && lastNum == 0
      modifies this
      ensures Loaded(old(disk), now, Now())
    {
      ghost var found := disk;
      var todo := disk.Keys;
      var maxNum: nat := 0;
      while todo != {}
        invariant Loading(found, todo, now, State(offline, maxNum, disk))
        decreases |todo|
      {
        var k :| k in todo;
        ghost var s := State(offline, maxNum, disk);
        LoadOne(found, todo, now, s, k);
        if disk[k].expiry <= now {
          disk := disk - {k};
        } else {
          var p := Pending(k.num, disk[k].blob, disk[k].expiry);
          offline := offline[k.node := (if k.node in offline then offline[k.node] else []) + [p]];
          if k.num > maxNum { maxNum := k.num; }
        }
        todo := todo - {k};
      }
      lastNum := maxNum;
      LoadDone(found, now, Now());
    }
  }

  // ---- the sweep, queue by queue -----------------------------------------------------------------------

  ghost predicate Sweeping(offline: map<nat, seq<Pending>>, todo: set<nat>, now: int, kept: map<nat, seq<Pending>>,
                           gone: set<Key>) {
    && todo <= offline.Keys
    && kept == (map n | n in offline && n !in todo && Live(offline[n], now) != [] :: Live(offline[n], now))
    && gone == (set n, p | n in offline && n !in todo && p in offline[n] && p.expiry <= now :: Key(n, p.num))
  }

  lemma SweepOne(offline: map<nat, seq<Pending>>, todo: set<nat>, now: int, kept: map<nat, seq<Pending>>,
                 gone: set<Key>, n: nat)
    requires Sweeping(offline, todo, now, kept, gone) && n in todo
    ensures var live := Live(offline[n], now);
      Sweeping(offline, todo - {n}, now, if live != [] then kept[n := live] else kept,
               gone + set p | p in offline[n] && p.expiry <= now :: Key(n, p.num))
  {
  }

  /** What the sweep keeps and drops of one queue. */
  method SplitQueue(n: nat, q: seq<Pending>, now: int) returns (live: seq<Pending>, dead: set<Key>)
    ensures live == Live(q, now) && dead == (set p | p in q && p.expiry <= now :: Key(n, p.num))
  {
    live, dead := [], {};
    for i := 0 to |q|
      invariant live == Live(q[..i], now) && dead == set p | p in q[..i] && p.expiry <= now :: Key(n, p.num)
    {
      assert q[..i + 1] == q[..i] + [q[i]] && q[..i + 1][..i] == q[..i];
      if q[i].expiry > now { live := live + [q[i]]; } else { dead := dead + {Key(n, q[i].num)}; }
    }
    assert q[..|q|] == q;
  }

  /** The files of the expired blobs are the expired files. */
  lemma ExpiredFiles(s: State, now: int, gone: set<Key>)
    requires Inv(s) && gone == set n, p | n in s.offline && p in s.offline[n] && p.expiry <= now :: Key(n, p.num)
    ensures s.disk - gone == map k | k in s.disk && s.disk[k].expiry > now :: s.disk[k]
  {
    forall k | k in s.disk
      ensures k in gone <==> s.disk[k].expiry <= now
    {
      var p := Pending(k.num, s.disk[k].blob, s.disk[k].expiry);
      assert s.OnDisk(k.node, p) && s.InMemory(k.node, p);
      if k in gone {
        var n, r :| n in s.offline && r in s.offline[n] && r.expiry <= now && k == Key(n, r.num);
        assert s.InMemory(n, r) && s.OnDisk(n, r);
      }
    }
  }

  predicate Restored(found: map<Key, File>, todo: set<Key>, now: int, n: nat, p: Pending) {
    Key(n, p.num) in found && Key(n, p.num) !in todo && found[Key(n, p.num)] == File(p.blob, p.expiry) && p.expiry > now
  }

  /** The state of a load that has still to read the files in todo. */
  ghost predicate Loading(found: map<Key, File>, todo: set<Key>, now: int, s: State) {
    && todo <= found.Keys
    && s.disk == (map k | k in found && (k in todo || found[k].expiry > now) :: found[k])
    && (forall n: nat, p: Pending :: s.InMemory(n, p) <==> Restored(found, todo, now, n, p))
    && (forall n: nat :: Distinct(s.Queue(n)))
    && (forall n: nat, p: Pending | s.InMemory(n, p) :: p.num <= s.lastNum)
    && (s.lastNum == 0 || exists n: nat, p: Pending :: s.InMemory(n, p) && p.num == s.lastNum)
  }

  /** The state after file k has been read. */
  ghost function AfterFile(s: State, k: Key, now: int): State
    requires k in s.disk
  {
    var p := Pending(k.num, s.disk[k].blob, s.disk[k].expiry);
    if p.expiry <= now then s.(disk := s.disk - {k})
    else s.(offline := s.offline[k.node := s.Queue(k.node) + [p]],
            lastNum := if k.num > s.lastNum then k.num else s.lastNum)
  }

  lemma LoadOne(found: map<Key, File>, todo: set<Key>, now: int, s: State, k: Key)
    requires Loading(found, todo, now, s) && k in todo
    ensures k in s.disk && Loading(found, todo - {k}, now, AfterFile(s, k, now))
  {
    var p, t := Pending(k.num, s.disk[k].blob, s.disk[k].expiry), AfterFile(s, k, now);
    if p.expiry <= now {
      forall n: nat, r: Pending
        ensures Restored(found, todo - {k}, now, n, r) <==> Restored(found, todo, now, n, r)
      {
      }
      assert forall n: nat :: t.Queue(n) == s.Queue(n);
      LastNumKept(s, t);
    } else {
      LoadLive(found, todo, now, s, k, p, t);
    }
  }

  lemma LastNumKept(s: State, t: State)
    requires t.lastNum == s.lastNum && forall n: nat, r: Pending :: t.InMemory(n, r) <==> s.InMemory(n, r)
    requires s.lastNum == 0 || exists n: nat, p: Pending :: s.InMemory(n, p) && p.num == s.lastNum
    ensures t.lastNum == 0 || exists n: nat, p: Pending :: t.InMemory(n, p) && p.num == t.lastNum
  {
    if s.lastNum != 0 {
      var n: nat, p: Pending :| s.InMemory(n, p) && p.num == s.lastNum;
      assert t.InMemory(n, p);
    }
  }

  lemma LoadLive(found: map<Key, File>, todo: set<Key>, now: int, s: State, k: Key, p: Pending, t: State)
    requires Loading(found, todo, now, s) && k in todo && p == Pending(k.num, found[k].blob, found[k].expiry)
    requires p.expiry > now
    requires t == s.(offline := s.offline[k.node := s.Queue(k.node) + [p]],
                     lastNum := if k.num > s.lastNum then k.num else s.lastNum)
    ensures Loading(found, todo - {k}, now, t)
  {
    forall n: nat, r: Pending
      ensures t.InMemory(n, r) <==> s.InMemory(n, r) || (n == k.node && r == p)
      ensures t.InMemory(n, r) <==> Restored(found, todo - {k}, now, n, r)
    {
      assert s.InMemory(n, r) <==> Restored(found, todo, now, n, r);
    }
    forall n: nat
      ensures Distinct(t.Queue(n))
    {
      assert Distinct(s.Queue(n));
      if n == k.node { NewNumber(found, todo, now, s, k, p); }
    }
    assert t.InMemory(k.node, p);
    if t.lastNum == s.lastNum != 0 {
      var n: nat, r: Pending :| s.InMemory(n, r) && r.num == s.lastNum;
      assert t.InMemory(n, r);
    }
  }

  lemma NewNumber(found: map<Key, File>, todo: set<Key>, now: int, s: State, k: Key, p: Pending)
    requires Loading(found, todo, now, s) && k in todo && p.num == k.num && Distinct(s.Queue(k.node))
    ensures Distinct(s.Queue(k.node) + [p])
  {
    var q := s.Queue(k.node);
    forall i | 0 <= i < |q|
      ensures q[i].num != p.num
    {
      assert s.InMemory(k.node, q[i]) && Restored(found, todo, now, k.node, q[i]);
    }
  }

  lemma LoadDone(found: map<Key, File>, now: int, t: State)
    requires Loading(found, {}, now, t)
    ensures Loaded(found, now, t)
  {
    forall n: nat, p: Pending
      ensures t.InMemory(n, p) <==> State(map[], 0, found).OnDisk(n, p) && p.expiry > now
    {
      assert t.InMemory(n, p) <==> Restored(found, {}, now, n, p);
    }
  }
}
