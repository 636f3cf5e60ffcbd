/** A relay's store-and-forward queues and their copy on disk
    (internal/transfer/storeforward.go:17-61, 119-229; internal/storage/storage.go:78-169).
    Node 0 stands for the empty node id; blobs are opaque and named by numbers. */
module OfflineStore {
  import opened Basics

  const MAX_PER_NODE: nat := 64

  datatype Pending = Pending(num: nat, blob: nat, expiry: int)

  datatype Key = Key(node: nat, num: nat)

  datatype File = File(blob: nat, expiry: int)

  datatype State = State(offline: map<nat, seq<Pending>>, lastNum: nat, disk: map<Key, File>)
  {
    function Queue(n: nat): seq<Pending> { if n in offline then offline[n] else [] }

    predicate InMemory(n: nat, p: Pending) { p in Queue(n) }

    predicate OnDisk(n: nat, p: Pending) { Key(n, p.num) in disk && disk[Key(n, p.num)] == File(p.blob, p.expiry) }
  }

  predicate Distinct(q: seq<Pending>) { forall i, j :: 0 <= i < j < |q| ==> q[i].num != q[j].num }

  /** Memory and disk hold the same blobs, every number is used once and none is ahead of the
      counter, and no recipient has more than its share. */
  ghost predicate Inv(s: State) {
    && (forall n: nat, p: Pending :: s.InMemory(n, p) <==> s.OnDisk(n, p))
    && (forall n: nat :: QueueOk(s, n))
    && (forall m: nat, n: nat, p: Pending, r: Pending | s.InMemory(m, p) && s.InMemory(n, r) && p.num == r.num ::
          m == n)
  }

  ghost predicate QueueOk(s: State, n: nat) {
    |s.Queue(n)| <= MAX_PER_NODE && Distinct(s.Queue(n)) && forall p | p in s.Queue(n) :: 0 < p.num <= s.lastNum
  }

  // ---- holding a blob -------------------------------------------------------------------------------

  function Excess(q: seq<Pending>): nat { if |q| > MAX_PER_NODE then |q| - MAX_PER_NODE else 0 }

  function KeysOf(n: nat, q: seq<Pending>): set<Key> { set p | p in q :: Key(n, p.num) }

  function Stored(s: State, n: nat, p: Pending): State {
    var q := s.Queue(n) + [p];
    s.(offline := s.offline[n := q[Excess(q)..]], lastNum := p.num,
       disk := s.disk[Key(n, p.num) := File(p.blob, p.expiry)] - KeysOf(n, q[..Excess(q)]))
  }

  /** What a store changes: the blob is added, and only a queue that was full loses its first. */
  lemma {:induction false} StoredHolds(s: State, n: nat, p: Pending, m: nat, r: Pending)
    requires Inv(s) && p.num == s.lastNum + 1
    ensures Stored(s, n, p).InMemory(m, r) <==>
      (m == n && r == p) || (s.InMemory(m, r) && !(m == n && |s.Queue(n)| == MAX_PER_NODE && r == s.Queue(n)[0]))
  {
    assert QueueOk(s, n);
    var q := s.Queue(n) + [p];
    if m == n {
      var kept := q[Excess(q)..];
      if |s.Queue(n)| == MAX_PER_NODE {
        FirstOnly(q, r);
      } else {
        assert kept == q;
      }
    }
  }

  /** Dropping the first of a queue without repeated numbers drops nothing else. */
  lemma FirstOnly(q: seq<Pending>, r: Pending)
    requires q != []
    requires forall j :: 0 < j < |q| ==> q[j] != q[0]
    ensures r in q[1..] <==> r in q && r != q[0]
  {
    assert q == [q[0]] + q[1..];
    assert forall j :: 0 <= j < |q[1..]| ==> q[1..][j] == q[j + 1];
  }

  lemma StoredOnDisk(s: State, n: nat, p: Pending, m: nat, r: Pending)
    requires Inv(s) && p.num == s.lastNum + 1
    ensures Stored(s, n, p).OnDisk(m, r) <==>
      (m == n && r == p) || (s.OnDisk(m, r) && !(m == n && |s.Queue(n)| == MAX_PER_NODE && r == s.Queue(n)[0]))
  {
    assert QueueOk(s, n);
    assert s.InMemory(m, r) <==> s.OnDisk(m, r);
    var old', q := s.Queue(n), s.Queue(n) + [p];
    var gone := q[..Excess(q)];
    if |old'| == MAX_PER_NODE {
      assert gone == [old'[0]];
      assert KeysOf(n, gone) == {Key(n, old'[0].num)};
      assert s.InMemory(n, old'[0]) && s.OnDisk(n, old'[0]);
    } else {
      assert gone == [];
    }
    assert m == n && r.num == p.num ==> !s.InMemory(m, r);
  }

  lemma StoredQueue(s: State, n: nat, p: Pending, m: nat)
    requires Inv(s) && p.num == s.lastNum + 1
    ensures QueueOk(Stored(s, n, p), m)
  {
    assert QueueOk(s, m) && QueueOk(s, n);
    var q := s.Queue(n) + [p];
    assert Distinct(q);
    assert forall r | r in q :: 0 < r.num <= p.num;
  }

  lemma {:induction false} StoreKeeps(s: State, n: nat, p: Pending)
    requires Inv(s) && p.num == s.lastNum + 1
    ensures Inv(Stored(s, n, p))
  {
    var t := Stored(s, n, p);
    forall m: nat, r: Pending
      ensures t.InMemory(m, r) <==> t.OnDisk(m, r)
    {
      StoredHolds(s, n, p, m, r);
      StoredOnDisk(s, n, p, m, r);
      assert s.InMemory(m, r) <==> s.OnDisk(m, r);
    }
    forall m: nat
      ensures QueueOk(t, m)
    {
      StoredQueue(s, n, p, m);
    }
    forall k: nat, m: nat, r: Pending, r': Pending | t.InMemory(k, r) && t.InMemory(m, r') && r.num == r'.num
      ensures k == m
    {
      StoredHolds(s, n, p, k, r);
      StoredHolds(s, n, p, m, r');
      assert QueueOk(s, k) && QueueOk(s, m);
    }
  }

  // ---- keeping some of what is held -----------------------------------------------------------------

  /** t holds exactly the blobs of s that keep selects, in memory and on disk. */
  ghost predicate Keeps(s: State, keep: (nat, Pending) -> bool, t: State) {
    && (forall n: nat, p: Pending :: t.InMemory(n, p) <==> s.InMemory(n, p) && keep(n, p))
    && (forall n: nat, p: Pending :: t.OnDisk(n, p) <==> s.OnDisk(n, p) && keep(n, p))
    && (forall n: nat :: Distinct(t.Queue(n)))
    && (forall n: nat, p: Pending | t.InMemory(n, p) :: p.num <= t.lastNum)
  }

  /** Whatever is dropped, agreement is kept. */
  lemma KeepingKeeps(s: State, keep: (nat, Pending) -> bool, t: State)
    requires Inv(s) && Keeps(s, keep, t)
    ensures Inv(t)
  {
    forall n: nat
      ensures QueueOk(t, n)
    {
      assert QueueOk(s, n);
      forall p | p in t.Queue(n)
        ensures p in s.Queue(n) && 0 < p.num <= t.lastNum
      {
        assert t.InMemory(n, p) && s.InMemory(n, p);
      }
      NoMoreThan(t.Queue(n), s.Queue(n));
    }
    forall n: nat, p: Pending
      ensures t.InMemory(n, p) <==> t.OnDisk(n, p)
    {
      assert s.InMemory(n, p) <==> s.OnDisk(n, p);
    }
    forall m: nat, n: nat, p: Pending, r: Pending | t.InMemory(m, p) && t.InMemory(n, r) && p.num == r.num
      ensures m == n
    {
      assert s.InMemory(m, p) && s.InMemory(n, r);
    }
  }

  function Cleared(s: State, n: nat): State {
    s.(offline := s.offline - {n}, disk := map k | k in s.disk && k.node != n :: s.disk[k])
  }

  lemma {:induction false} ClearKeeps(s: State, n: nat)
    requires Inv(s)
    ensures Keeps(s, (m: nat, p: Pending) => m != n, Cleared(s, n)) && Inv(Cleared(s, n))
  {
    var t := Cleared(s, n);
    forall m: nat
      ensures Distinct(t.Queue(m)) && forall p | p in t.Queue(m) :: p.num <= t.lastNum
    {
      assert QueueOk(s, m);
    }
    KeepingKeeps(s, (m: nat, p: Pending) => m != n, t);
  }

  function Live(q: seq<Pending>, now: int): seq<Pending> {
    if q == [] then [] else Live(q[..|q| - 1], now) + if q[|q| - 1].expiry > now then [q[|q| - 1]] else []
  }

  lemma {:induction false} LiveAre(q: seq<Pending>, now: int)
    ensures forall p :: p in Live(q, now) <==> p in q && p.expiry > now
    ensures Distinct(q) ==> Distinct(Live(q, now))
  {
    if q != [] {
      var front := q[..|q| - 1];
      LiveAre(front, now);
      assert q == front + [q[|q| - 1]];
      if Distinct(q) {
        forall i | 0 <= i < |Live(front, now)|
          ensures Live(front, now)[i].num != q[|q| - 1].num
        {
          var p := Live(front, now)[i];
          assert p in front;
        }
      }
    }
  }

  function Swept(s: State, now: int): State {
    s.(offline := map n | n in s.offline && Live(s.offline[n], now) != [] :: Live(s.offline[n], now),
       disk := map k | k in s.disk && s.disk[k].expiry > now :: s.disk[k])
  }

  lemma {:induction false} SweepKeeps(s: State, now: int)
    requires Inv(s)
    ensures Keeps(s, (n: nat, p: Pending) => p.expiry > now, Swept(s, now)) && Inv(Swept(s, now))
  {
    var t := Swept(s, now);
    forall n: nat, p: Pending
      ensures t.InMemory(n, p) <==> s.InMemory(n, p) && p.expiry > now
      ensures t.OnDisk(n, p) <==> s.OnDisk(n, p) && p.expiry > now
      ensures Distinct(t.Queue(n)) && (t.InMemory(n, p) ==> p.num <= t.lastNum)
    {
      assert QueueOk(s, n);
      SweptQueue(s, now, n, p);
    }
    KeepingKeeps(s, (n: nat, p: Pending) => p.expiry > now, t);
  }

  lemma SweptQueue(s: State, now: int, n: nat, p: Pending)
    requires QueueOk(s, n)
    ensures var t := Swept(s, now);
      && (t.InMemory(n, p) <==> s.InMemory(n, p) && p.expiry > now)
      && Distinct(t.Queue(n)) && (t.InMemory(n, p) ==> p.num <= t.lastNum)
  {
    LiveAre(s.Queue(n), now);
    assert Swept(s, now).Queue(n) == Live(s.Queue(n), now);
  }

  // ---- a restart ---------------------------------------------------------------------------------------

  /** t is what a fresh process loads from the given disk: every file that has not expired, in
      whatever order the files are listed. Expired files are deleted, and the counter moves to
      the largest number loaded. */
  ghost predicate Loaded(disk: map<Key, File>, now: int, t: State) {
    var found := State(map[], 0, disk);
    && t.disk == (map k | k in disk && disk[k].expiry > now :: disk[k])
    && (forall n: nat, p: Pending :: t.InMemory(n, p) <==> found.OnDisk(n, p) && p.expiry > now)
    && (forall n: nat :: Distinct(t.Queue(n)))
    && (forall n: nat, p: Pending | t.InMemory(n, p) :: p.num <= t.lastNum)
    && (t.lastNum == 0 || exists n: nat, p: Pending :: t.InMemory(n, p) && p.num == t.lastNum)
  }

  /** A restart restores exactly the unexpired blobs, and a number given out afterwards collides
      with none of them. */
  lemma {:induction false} RestartKeeps(s: State, now: int, t: State)
    requires Inv(s) && Loaded(s.disk, now, t)
    ensures Keeps(s, (n: nat, p: Pending) => p.expiry > now, t) && Inv(t)
    ensures forall n: nat, p: Pending | t.InMemory(n, p) :: p.num != t.lastNum + 1
  {
    var found := State(map[], 0, s.disk);
    forall n: nat, p: Pending
      ensures t.InMemory(n, p) <==> s.InMemory(n, p) && p.expiry > now
      ensures t.OnDisk(n, p) <==> s.OnDisk(n, p) && p.expiry > now
    {
      assert found.OnDisk(n, p) <==> s.OnDisk(n, p);
      assert s.InMemory(n, p) <==> s.OnDisk(n, p);
    }
    KeepingKeeps(s, (n: nat, p: Pending) => p.expiry > now, t);
  }

  // ---- whole histories ---------------------------------------------------------------------------------

  datatype Op =
    | Store(node: nat, blob: nat, expiry: int)
    | Clear(node: nat)      // everything held for the node was flushed or redelivered
    | Sweep(now: int)
    | Restart(now: int)

  ghost predicate Step(s: State, op: Op, t: State) {
    match op
    case Store(n, blob, expiry) => t == Stored(s, n, Pending(s.lastNum + 1, blob, expiry))
    case Clear(n) => t == Cleared(s, n)
    case Sweep(now) => t == Swept(s, now)
    case Restart(now) => Loaded(s.disk, now, t)
  }

  ghost predicate Run(ss: seq<State>, ops: seq<Op>) {
    && |ss| == |ops| + 1 && ss[0] == State(map[], 0, map[])
    && forall i :: 0 <= i < |ops| ==> Step(ss[i], ops[i], ss[i + 1])
  }

  /** Memory and disk agree after every operation of every history, restarts included. */
  lemma {:induction false} AlwaysAgree(ss: seq<State>, ops: seq<Op>, i: nat)
    requires Run(ss, ops) && i < |ss|
    ensures Inv(ss[i])
  {
    if i > 0 {
      AlwaysAgree(ss, ops, i - 1);
      var s, op, t := ss[i - 1], ops[i - 1], ss[i];
      assert Step(s, op, t);
      match op {
        case Store(n, blob, expiry) => StoreKeeps(s, n, Pending(s.lastNum + 1, blob, expiry));
        case Clear(n) => ClearKeeps(s, n);
        case Sweep(now) => SweepKeeps(s, now);
        case Restart(now) => RestartKeeps(s, now, t);
      }
    }
  }

  lemma {:induction false} AtMost64Held(ss: seq<State>, ops: seq<Op>, i: nat, n: nat)
    requires Run(ss, ops) && i < |ss|
    ensures |ss[i].Queue(n)| <= 64
  {
    AlwaysAgree(ss, ops, i);
    assert QueueOk(ss[i], n);
  }

  /** Nothing is lost without a reason: a blob that is held stays held through any operation
      unless its node was served, it expired, or it was first in a full queue. */
  lemma {:induction false} LossHasReason(ss: seq<State>, ops: seq<Op>, i: nat, n: nat, p: Pending)
    requires Run(ss, ops) && i < |ops| && ss[i].InMemory(n, p) && !ss[i + 1].InMemory(n, p)
    ensures match ops[i] {
      case Store(m, _, _) => m == n && |ss[i].Queue(n)| == 64 && p == ss[i].Queue(n)[0]
      case Clear(m) => m == n
      case Sweep(now) => p.expiry <= now
      case Restart(now) => p.expiry <= now
    }
  {
    AlwaysAgree(ss, ops, i);
    var s, op, t := ss[i], ops[i], ss[i + 1];
    assert Step(s, op, t);
    match op {
      case Store(m, blob, expiry) => StoredHolds(s, m, Pending(s.lastNum + 1, blob, expiry), n, p);
      case Clear(m) => ClearKeeps(s, m);
      case Sweep(now) => SweepKeeps(s, now);
      case Restart(now) => RestartKeeps(s, now, t);
    }
  }
}
