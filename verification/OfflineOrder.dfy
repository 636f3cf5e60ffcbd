/** Whether held blobs keep their arrival order. Blobs are numbered as they arrive, and a queue
    hands them out and evicts them from the front. A restart lists the files by name
    (internal/storage/storage.go:117-169), and a name is the number in decimal, so that 10 comes
    before 9. */
module OfflineOrder {
  import opened Basics
  import opened OfflineStore

  /** Arrival order. */
  predicate Ascending(q: seq<Pending>) { forall i, j :: 0 <= i < j < |q| ==> q[i].num < q[j].num }

  ghost predicate InArrivalOrder(s: State) { forall n: nat :: Ascending(s.Queue(n)) }

  function Digits(n: nat): seq<nat> { if n < 10 then [n] else Digits(n / 10) + [n % 10] }

  /** Names compare byte by byte; the dot after the digits is smaller than any digit. */
  predicate Less(a: seq<nat>, b: seq<nat>) {
    b != [] && (a == [] || a[0] < b[0] || (a[0] == b[0] && Less(a[1..], b[1..])))
  }

  predicate NameLess(a: nat, b: nat) { Less(Digits(a), Digits(b)) }

  lemma {:induction false} LessOneWay(a: seq<nat>, b: seq<nat>)
    ensures !(Less(a, b) && Less(b, a))
  {
    if a != [] && b != [] { LessOneWay(a[1..], b[1..]); }
  }

  /** Every queue of a freshly loaded state is in the order of the file names. */
  ghost predicate Listed(t: State) {
    forall n: nat, i, j :: 0 <= i < j < |t.Queue(n)| ==> NameLess(t.Queue(n)[i].num, t.Queue(n)[j].num)
  }

  /** The names of the unexpired blobs of each node are ordered like their numbers. */
  ghost predicate NamesAgree(s: State, now: int) {
    forall n: nat, p: Pending, r: Pending |
      s.InMemory(n, p) && s.InMemory(n, r) && p.expiry > now && r.expiry > now && p.num < r.num ::
        NameLess(p.num, r.num)
  }

  /** A restart leaves the queues in arrival order if and only if the names agree with the
      numbers. */
  lemma {:induction false} RestartOrderIff(s: State, now: int, t: State)
    requires Inv(s) && Loaded(s.disk, now, t) && Listed(t)
    ensures InArrivalOrder(t) <==> NamesAgree(s, now)
  {
    RestartKeeps(s, now, t);
    if InArrivalOrder(t) {
      forall n: nat, p: Pending, r: Pending |
        s.InMemory(n, p) && s.InMemory(n, r) && p.expiry > now && r.expiry > now && p.num < r.num
        ensures NameLess(p.num, r.num)
      {
        assert t.InMemory(n, p) && t.InMemory(n, r) && Ascending(t.Queue(n));
        var i :| 0 <= i < |t.Queue(n)| && t.Queue(n)[i] == p;
        var j :| 0 <= j < |t.Queue(n)| && t.Queue(n)[j] == r;
        assert i < j;
      }
    }
    if NamesAgree(s, now) {
      forall n: nat
        ensures Ascending(t.Queue(n))
      {
        NamedAscending(s, now, t, n);
      }
    }
  }

  lemma NamedAscending(s: State, now: int, t: State, n: nat)
    requires Keeps(s, (n: nat, p: Pending) => p.expiry > now, t) && Listed(t) && NamesAgree(s, now)
    ensures Ascending(t.Queue(n))
  {
    var q := t.Queue(n);
    forall i, j | 0 <= i < j < |q|
      ensures q[i].num < q[j].num
    {
      assert Distinct(q) && t.InMemory(n, q[i]) && t.InMemory(n, q[j]);
      assert s.InMemory(n, q[i]) && s.InMemory(n, q[j]);
      LessOneWay(Digits(q[i].num), Digits(q[j].num));
    }
  }

  lemma {:induction false} LiveAscending(q: seq<Pending>, now: int)
    requires Ascending(q)
    ensures Ascending(Live(q, now)) && forall p | p in Live(q, now) :: p in q
  {
    if q != [] {
      var front, last := q[..|q| - 1], q[|q| - 1];
      LiveAscending(front, now);
      forall k | 0 <= k < |Live(front, now)|
        ensures Live(front, now)[k].num < last.num
      {
        assert Live(front, now)[k] in front;
      }
    }
  }

  /** Every other operation keeps arrival order. */
  lemma {:induction false} OrderStep(s: State, op: Op, t: State)
    requires Inv(s) && InArrivalOrder(s) && Step(s, op, t) && !op.Restart?
    ensures InArrivalOrder(t)
  {
    forall n: nat
      ensures Ascending(t.Queue(n))
    {
      assert Ascending(s.Queue(n)) && QueueOk(s, n);
      if op.Sweep? {
        LiveAscending(s.Queue(n), op.now);
        assert t.Queue(n) == Live(s.Queue(n), op.now);
      }
    }
  }

  /** A restart, if op is one, lists the files by name and finds names that agree with the
      numbers. */
  ghost predicate OrderlyRestart(s: State, op: Op, t: State) { op.Restart? ==> Listed(t) && NamesAgree(s, op.now) }

  ghost predicate OrderlyAt(ss: seq<State>, ops: seq<Op>, j: nat)
    requires j < |ops| && |ss| == |ops| + 1
  {
    OrderlyRestart(ss[j], ops[j], ss[j + 1])
  }

  lemma OrderlyStep(s: State, op: Op, t: State)
    requires Inv(s) && InArrivalOrder(s) && Step(s, op, t) && OrderlyRestart(s, op, t)
    ensures InArrivalOrder(t)
  {
    if op.Restart? {
      RestartOrderIff(s, op.now, t);
    } else {
      OrderStep(s, op, t);
    }
  }

  /** Over every history whose restarts list the files by name and find names that agree with the
      numbers, every queue is in arrival order; so what a full queue evicts is the oldest. */
  lemma {:induction false} OrderKept(ss: seq<State>, ops: seq<Op>, i: nat)
    requires Run(ss, ops) && i < |ss| && forall j: nat | j < i :: OrderlyAt(ss, ops, j)
    ensures InArrivalOrder(ss[i])
  {
    if i == 0 {
      EmptyInOrder(ss[0]);
    } else {
      var s, op, t := ss[i - 1], ops[i - 1], ss[i];
      OrderKept(ss, ops, i - 1);
      AlwaysAgree(ss, ops, i - 1);
      assert OrderlyAt(ss, ops, i - 1) && Step(s, op, t);
      OrderlyStep(s, op, t);
    }
  }

  lemma EmptyInOrder(s: State)
    requires s == State(map[], 0, map[])
    ensures InArrivalOrder(s)
  {
  }

  /** A restart that finds the blobs 9 and 10 puts the later one first. */
  lemma {:induction false} RestartReverses(s: State, now: int, t: State, n: nat, p: Pending, r: Pending)
    requires Inv(s) && Loaded(s.disk, now, t) && Listed(t)
    requires s.Queue(n) == [p, r] && p.num == 9 && r.num == 10 && p.expiry > now && r.expiry > now
    ensures t.Queue(n) == [r, p]
  {
    RestartKeeps(s, now, t);
    assert s.InMemory(n, p) && s.InMemory(n, r) && t.InMemory(n, p) && t.InMemory(n, r);
    var q := t.Queue(n);
    forall x | x in q
      ensures x == p || x == r
    {
      assert t.InMemory(n, x) && s.InMemory(n, x);
    }
    assert Digits(9) == [9] && Digits(10) == [1, 0];
    assert NameLess(10, 9) && !NameLess(9, 10);
    assert Distinct(q);
    PairOf(q, p, r);
  }

  lemma PairOf(q: seq<Pending>, p: Pending, r: Pending)
    requires Distinct(q) && p in q && r in q && p.num != r.num && forall x | x in q :: x == p || x == r
    ensures q == [p, r] || q == [r, p]
  {
    assert forall k :: 0 <= k < |q| ==> q[k] in q;
    NoMoreThan(q, [p, r]);
  }
}
