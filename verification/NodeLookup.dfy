/** The rounds of an iterative lookup (internal/dht/dht.go:226-262). */
module NodeLookup {
  import opened Contacts
  import opened Ranking

  /** One round: the shortlist it started from and the contacts it probed. */
  datatype Round<K> = Round(shortlist: seq<Contact<K>>, batch: seq<Contact<K>>)

  /** Every contact probed, in order. */
  function Asked<K>(rounds: seq<Round<K>>): seq<Contact<K>> {
    if rounds == [] then [] else Asked(rounds[..|rounds| - 1]) + rounds[|rounds| - 1].batch
  }

  /** Everything the probed contacts replied. */
  function Replies<K>(query: Contact<K> -> seq<Contact<K>>, asked: seq<Contact<K>>): seq<Contact<K>> {
    if asked == [] then [] else Replies(query, asked[..|asked| - 1]) + query(asked[|asked| - 1])
  }

  /** batch is taken from the positions at of the list, in order: contacts not queried, n of them or
      all there are, and every such contact left out stands behind them. */
  ghost predicate IsBatch<K>(list: seq<Contact<K>>, queried: set<K>, n: nat, batch: seq<Contact<K>>, at: seq<nat>) {
    && |at| == |batch| <= n
    && (forall i :: 0 <= i < |at| ==> at[i] < |list| && list[at[i]] == batch[i] && batch[i].id !in queried)
    && (forall i, j :: 0 <= i < j < |at| ==> at[i] < at[j])
    && (forall p: nat | p < |list| && list[p].id !in queried && p !in at ::
          |batch| == n && forall i :: 0 <= i < |at| ==> at[i] < p)
  }

  /** batch holds the first n contacts of the list that were not queried, or all of them. */
  ghost predicate Unqueried<K>(list: seq<Contact<K>>, queried: set<K>, n: nat, batch: seq<Contact<K>>) {
    exists at :: IsBatch(list, queried, n, batch, at)
  }

  ghost function Ids<K>(cs: seq<Contact<K>>): set<K> { set c | c in cs :: c.id }

  /** What is known before the first round, and after the given rounds. */
  function KnownAfter<K(==)>(self: K, known: map<K, Contact<K>>, query: Contact<K> -> seq<Contact<K>>,
                             rounds: seq<Round<K>>): map<K, Contact<K>> {
    Learned(self, known, Replies(query, Asked(rounds)))
  }

  /** Round i started from the k closest of everything known by then, and probed the alpha
      closest of them that had not been probed. */
  ghost predicate RoundOk<K>(less: (K, K) -> bool, self: K, known: map<K, Contact<K>>, k: nat, alpha: nat,
                                 query: Contact<K> -> seq<Contact<K>>, rounds: seq<Round<K>>, i: nat)
    requires i < |rounds|
  {
    && IsTop(less, k, KnownAfter(self, known, query, rounds[..i]), rounds[i].shortlist)
    && Unqueried(rounds[i].shortlist, {self} + Ids(Asked(rounds[..i])), alpha, rounds[i].batch)
    && rounds[i].batch != []
  }

  ghost predicate RoundsOk<K>(less: (K, K) -> bool, self: K, known: map<K, Contact<K>>, k: nat, alpha: nat,
                                  query: Contact<K> -> seq<Contact<K>>, rounds: seq<Round<K>>)
  {
    forall i: nat | i < |rounds| :: RoundOk(less, self, known, k, alpha, query, rounds, i)
  }

  // ---- what the trace of rounds implies ----------------------------------------------------------

  lemma UnqueriedAre<K>(list: seq<Contact<K>>, queried: set<K>, n: nat, batch: seq<Contact<K>>)
    requires Distinct(list) && Unqueried(list, queried, n, batch)
    ensures |batch| <= n && Distinct(batch) && forall c | c in batch :: c in list && c.id !in queried
    ensures n > 0 && batch == [] ==> forall c | c in list :: c.id in queried
  {
    var at :| IsBatch(list, queried, n, batch, at);
    forall c | c in batch
      ensures c in list && c.id !in queried
    {
      var i :| 0 <= i < |batch| && batch[i] == c;
      assert list[at[i]] == c;
    }
  }

  lemma DistinctPlus<K>(a: seq<Contact<K>>, b: seq<Contact<K>>)
    requires Distinct(a) && Distinct(b) && forall c | c in b :: c.id !in Ids(a)
    ensures Distinct(a + b)
  {
    forall i, j | 0 <= i < |a| && 0 <= j < |b|
      ensures a[i].id != b[j].id
    {
      assert a[i] in a && b[j] in b;
      assert a[i].id in Ids(a);
    }
  }

  lemma RoundsFront<K>(less: (K, K) -> bool, self: K, known: map<K, Contact<K>>, k: nat, alpha: nat,
                       query: Contact<K> -> seq<Contact<K>>, rounds: seq<Round<K>>, n: nat)
    requires RoundsOk(less, self, known, k, alpha, query, rounds) && n <= |rounds|
    ensures RoundsOk(less, self, known, k, alpha, query, rounds[..n])
  {
    forall i: nat | i < n
      ensures RoundOk(less, self, known, k, alpha, query, rounds[..n], i)
    {
      assert rounds[..n][..i] == rounds[..i];
      assert RoundOk(less, self, known, k, alpha, query, rounds, i);
    }
  }

  /** No id is probed twice, and self is never probed. */
  lemma {:induction false} AskedOnce<K(!new)>(less: (K, K) -> bool, self: K, known: map<K, Contact<K>>, k: nat,
                                              alpha: nat, query: Contact<K> -> seq<Contact<K>>, rounds: seq<Round<K>>)
    requires StrictOrder(less) && RoundsOk(less, self, known, k, alpha, query, rounds)
    ensures Distinct(Asked(rounds)) && self !in Ids(Asked(rounds))
  {
    if rounds != [] {
      var n := |rounds| - 1;
      RoundsFront(less, self, known, k, alpha, query, rounds, n);
      AskedOnce(less, self, known, k, alpha, query, rounds[..n]);
      assert RoundOk(less, self, known, k, alpha, query, rounds, n);
      BatchIsNew(less, self, k, alpha, rounds[n], Asked(rounds[..n]));
    }
  }

  lemma {:induction false} AskedCount<K>(rounds: seq<Round<K>>, alpha: nat)
    requires forall i: nat | i < |rounds| :: 0 < |rounds[i].batch| <= alpha
    ensures |rounds| <= |Asked(rounds)| <= alpha * |rounds|
  {
    if rounds != [] {
      var n := |rounds| - 1;
      AskedCount(rounds[..n], alpha);
      assert alpha * |rounds| == alpha * n + alpha;
    }
  }

  lemma BatchIsNew<K(!new)>(less: (K, K) -> bool, self: K, k: nat, alpha: nat, r: Round<K>, asked: seq<Contact<K>>)
    requires StrictOrder(less) && Ordered(less, r.shortlist) && Distinct(asked) && self !in Ids(asked)
    requires Unqueried(r.shortlist, {self} + Ids(asked), alpha, r.batch)
    ensures Distinct(asked + r.batch) && self !in Ids(asked + r.batch)
  {
    OrderedDistinct(less, r.shortlist);
    UnqueriedAre(r.shortlist, {self} + Ids(asked), alpha, r.batch);
    DistinctPlus(asked, r.batch);
  }

  lemma {:induction false} RepliesPlus<K>(query: Contact<K> -> seq<Contact<K>>, a: seq<Contact<K>>, b: seq<Contact<K>>)
    ensures Replies(query, a + b) == Replies(query, a) + Replies(query, b)
  {
    if b == [] {
      assert a + b == a;
    } else {
      assert (a + b)[..|a + b| - 1] == a + b[..|b| - 1];
      RepliesPlus(query, a, b[..|b| - 1]);
    }
  }

  lemma {:induction false} LearnedPlus<K>(self: K, known: map<K, Contact<K>>, a: seq<Contact<K>>, b: seq<Contact<K>>)
    ensures Learned(self, known, a + b) == Learned(self, Learned(self, known, a), b)
  {
    if b == [] {
      assert a + b == a;
    } else {
      assert (a + b)[..|a + b| - 1] == a + b[..|b| - 1];
      LearnedPlus(self, known, a, b[..|b| - 1]);
    }
  }

  lemma KnownGrows<K>(self: K, known: map<K, Contact<K>>, query: Contact<K> -> seq<Contact<K>>,
                      rounds: seq<Round<K>>, r: Round<K>)
    ensures KnownAfter(self, known, query, rounds + [r]) ==
            Learned(self, KnownAfter(self, known, query, rounds), Replies(query, r.batch))
  {
    assert (rounds + [r])[..|rounds + [r]| - 1] == rounds;
    RepliesPlus(query, Asked(rounds), r.batch);
    LearnedPlus(self, known, Replies(query, Asked(rounds)), Replies(query, r.batch));
  }

  // ---- the loops ----------------------------------------------------------------------------------

  /** What the scan has taken from the first i contacts: all that were not queried. */
  ghost predicate Scanned<K>(list: seq<Contact<K>>, queried: set<K>, i: nat, batch: seq<Contact<K>>, at: seq<nat>) {
    && i <= |list| && |at| == |batch|
    && (forall j :: 0 <= j < |at| ==> at[j] < i && list[at[j]] == batch[j] && batch[j].id !in queried)
    && (forall j, k :: 0 <= j < k < |at| ==> at[j] < at[k])
    && (forall p: nat | p < i && list[p].id !in queried :: p in at)
  }

  lemma ScannedOne<K>(list: seq<Contact<K>>, queried: set<K>, i: nat, batch: seq<Contact<K>>, at: seq<nat>)
    requires Scanned(list, queried, i, batch, at) && i < |list|
    ensures list[i].id in queried ==> Scanned(list, queried, i + 1, batch, at)
    ensures list[i].id !in queried ==> Scanned(list, queried, i + 1, batch + [list[i]], at + [i])
  {
  }

  lemma ScannedAll<K>(list: seq<Contact<K>>, queried: set<K>, n: nat, i: nat, batch: seq<Contact<K>>, at: seq<nat>)
    requires Scanned(list, queried, i, batch, at) && |batch| <= n && (i == |list| || |batch| == n)
    ensures IsBatch(list, queried, n, batch, at)
  {
  }

  method SelectBatch<K(==)>(shortlist: seq<Contact<K>>, queried: set<K>, alpha: nat)
    returns (batch: seq<Contact<K>>)
    ensures Unqueried(shortlist, queried, alpha, batch)
  {
    batch := [];
    ghost var at: seq<nat> := [];
    var i := 0;
    while i < |shortlist| && |batch| < alpha
      invariant |batch| <= alpha && Scanned(shortlist, queried, i, batch, at)
    {
      var c := shortlist[i];
      ScannedOne(shortlist, queried, i, batch, at);
      if c.id !in queried {
        batch := batch + [c];
        at := at + [i];
      }
      i := i + 1;
    }
    ScannedAll(shortlist, queried, alpha, i, batch, at);
  }

  /** seen holds self, the listed ids and otherwise only known ids. */
  ghost predicate SeenOk<K(!new)>(self: K, known: map<K, Contact<K>>, list: seq<Contact<K>>, seen: set<K>) {
    && self in seen && self !in known && (forall id | id in seen :: id == self || id in known)
    && (forall i :: 0 <= i < |list| ==> list[i].id in seen)
  }

  lemma MergeOne<K(!new)>(less: (K, K) -> bool, self: K, k: nat, known: map<K, Contact<K>>, prev: seq<Contact<K>>,
                    list: seq<Contact<K>>, seen: set<K>, r: Contact<K>)
    requires Merging(less, k, known, prev, list) && SeenOk(self, known, list, seen) && r.id !in seen
    ensures var known' := if r.id in known then known else known[r.id := r];
      Merging(less, k, known', prev, list + [r]) && SeenOk(self, known', list + [r], seen + {r.id})
  {
    var known' := if r.id in known then known else known[r.id := r];
    assert !HasId(list, r.id);
    forall id | id in known'
      ensures HasId(list + [r], id) || Beaten(less, k, prev, id)
    {
      HasIdSnoc(list, r, id);
    }
  }

  /** The contacts of a reply whose ids were neither seen before nor named earlier in it. */
  ghost function Unseen<K>(reply: seq<Contact<K>>, seen: set<K>): seq<Contact<K>> {
    if reply == [] then []
    else
      var front, r := reply[..|reply| - 1], reply[|reply| - 1];
      Unseen(front, seen) + if r.id in seen + Ids(front) then [] else [r]
  }

  lemma UnseenOneMore<K>(self: K, known: map<K, Contact<K>>, reply: seq<Contact<K>>, seen: set<K>, i: nat)
    requires i < |reply|
    ensures var front, r := reply[..i], reply[i];
      && Unseen(reply[..i + 1], seen) == Unseen(front, seen) + (if r.id in seen + Ids(front) then [] else [r])
      && Ids(reply[..i + 1]) == Ids(front) + {r.id}
      && var m := Learned(self, known, front);
      Learned(self, known, reply[..i + 1]) == if r.id == self || r.id in m then m else m[r.id := r]
  {
    assert reply[..i + 1] == reply[..i] + [reply[i]] && reply[..i + 1][..i] == reply[..i];
  }

  /** Appends the contacts of a reply whose ids have not been seen. */
  method MergeReply<K(==, !new)>(ghost less: (K, K) -> bool, ghost self: K, ghost k: nat,
                                 ghost known: map<K, Contact<K>>, ghost prev: seq<Contact<K>>, list: seq<Contact<K>>,
                                 seen: set<K>, reply: seq<Contact<K>>)
    returns (list': seq<Contact<K>>, seen': set<K>)
    requires Merging(less, k, known, prev, list) && SeenOk(self, known, list, seen)
    ensures var known' := Learned(self, known, reply);
      Merging(less, k, known', prev, list') && SeenOk(self, known', list', seen')
    ensures list' == list + Unseen(reply, seen) && seen' == seen + Ids(reply)
  {
    list', seen' := list, seen;
    for i := 0 to |reply|
      invariant list' == list + Unseen(reply[..i], seen) && seen' == seen + Ids(reply[..i])
      invariant var known' := Learned(self, known, reply[..i]);
        Merging(less, k, known', prev, list') && SeenOk(self, known', list', seen')
    {
      var r := reply[i];
      UnseenOneMore(self, known, reply, seen, i);
      if r.id !in seen' {
        MergeOne(less, self, k, Learned(self, known, reply[..i]), prev, list', seen', r);
        seen' := seen' + {r.id};
        list' := list' + [r];
      }
    }
    assert reply[..|reply|] == reply;
  }

  /** Probes a batch and merges what comes back. */
  method ProbeBatch<K(==, !new)>(ghost less: (K, K) -> bool, ghost self: K, ghost k: nat,
                                 ghost known: map<K, Contact<K>>, query: Contact<K> -> seq<Contact<K>>,
                                 list: seq<Contact<K>>, seen: set<K>, queried: set<K>, batch: seq<Contact<K>>)
    returns (list': seq<Contact<K>>, seen': set<K>, queried': set<K>)
    requires Merging(less, k, known, list, list) && SeenOk(self, known, list, seen)
    ensures var known' := Learned(self, known, Replies(query, batch));
      Merging(less, k, known', list, list') && SeenOk(self, known', list', seen')
    ensures queried' == queried + Ids(batch)
  {
    list', seen', queried' := list, seen, queried;
    for i := 0 to |batch|
      invariant var known' := Learned(self, known, Replies(query, batch[..i]));
        Merging(less, k, known', list, list') && SeenOk(self, known', list', seen')
      invariant queried' == queried + Ids(batch[..i])
    {
      ghost var before := Replies(query, batch[..i]);
      list', seen' := MergeReply(less, self, k, Learned(self, known, before), list, list', seen', query(batch[i]));
      queried' := queried' + {batch[i].id};
      OneMore(query, batch, i);
      LearnedPlus(self, known, before, query(batch[i]));
    }
    assert batch[..|batch|] == batch;
  }

  lemma OneMore<K>(query: Contact<K> -> seq<Contact<K>>, batch: seq<Contact<K>>, i: nat)
    requires i < |batch|
    ensures Replies(query, batch[..i + 1]) == Replies(query, batch[..i]) + query(batch[i])
    ensures Ids(batch[..i + 1]) == Ids(batch[..i]) + {batch[i].id}
  {
    assert batch[..i + 1][..i] == batch[..i];
    assert batch[..i + 1] == batch[..i] + [batch[i]];
  }

  /** Sorts the merged list and cuts it to k. */
  method SortAndCut<K(==, !new)>(less: (K, K) -> bool, ghost self: K, k: nat, ghost known: map<K, Contact<K>>,
                                 ghost prev: seq<Contact<K>>, list: seq<Contact<K>>, ghost seen: set<K>)
    returns (r: seq<Contact<K>>)
    requires StrictOrder(less) && Merging(less, k, known, prev, list) && SeenOk(self, known, list, seen)
    ensures IsTop(less, k, known, r) && SeenOk(self, known, r, seen)
  {
    r := SortSlice(less, list);
    TopOfMerge(less, k, known, prev, list, r);
    SeenSorted(self, known, list, seen, r);
    if |r| > k { r := r[..k]; }
  }

  lemma SeenSorted<K(!new)>(self: K, known: map<K, Contact<K>>, list: seq<Contact<K>>, seen: set<K>, r: seq<Contact<K>>)
    requires SeenOk(self, known, list, seen) && multiset(r) == multiset(list)
    ensures SeenOk(self, known, r, seen)
  {
    forall i | 0 <= i < |r|
      ensures r[i].id in seen
    {
      assert r[i] in multiset(list);
    }
  }

  method SeenAtFirst<K(==)>(self: K, start: seq<Contact<K>>) returns (seen: set<K>)
    ensures seen == {self} + Ids(start)
  {
    seen := {self};
    for i := 0 to |start|
      invariant seen == {self} + Ids(start[..i])
    {
      seen := seen + {start[i].id};
      assert start[..i + 1] == start[..i] + [start[i]];
    }
    assert start[..|start|] == start;
  }

  /** One round: probe the batch, merge the replies, sort and cut. */
  method ProbeAndRank<K(==, !new)>(less: (K, K) -> bool, ghost self: K, k: nat, ghost known: map<K, Contact<K>>,
                                   query: Contact<K> -> seq<Contact<K>>, shortlist: seq<Contact<K>>, seen: set<K>,
                                   queried: set<K>, batch: seq<Contact<K>>)
    returns (shortlist': seq<Contact<K>>, seen': set<K>, queried': set<K>)
    requires StrictOrder(less) && IsTop(less, k, known, shortlist) && SeenOk(self, known, shortlist, seen)
    ensures var known' := Learned(self, known, Replies(query, batch));
      IsTop(less, k, known', shortlist') && SeenOk(self, known', shortlist', seen')
    ensures queried' == queried + Ids(batch)
  {
    ghost var known' := Learned(self, known, Replies(query, batch));
    var merged: seq<Contact<K>>;
    merged, seen', queried' := ProbeBatch(less, self, k, known, query, shortlist, seen, queried, batch);
    shortlist' := SortAndCut(less, self, k, known', shortlist, merged, seen');
  }

  /** The whole iteration from a starting shortlist: the k closest of what the table knows. */
  method Iterate<K(==, !new)>(less: (K, K) -> bool, self: K, ghost known: map<K, Contact<K>>, start: seq<Contact<K>>,
                              k: nat, alpha: nat, maxRounds: nat, query: Contact<K> -> seq<Contact<K>>)
    returns (shortlist: seq<Contact<K>>, rounds: seq<Round<K>>)
    requires StrictOrder(less) && IsTop(less, k, known, start) && self !in known && alpha > 0
    ensures RoundsOk(less, self, known, k, alpha, query, rounds) && |rounds| <= maxRounds
    ensures IsTop(less, k, KnownAfter(self, known, query, rounds), shortlist)
    ensures |rounds| < maxRounds ==> forall c | c in shortlist :: c.id in Ids(Asked(rounds))
  {
    shortlist, rounds := start, [];
    var queried := {self};
    var seen := SeenAtFirst(self, start);
    StartSeen(less, self, k, known, start);
    while |rounds| < maxRounds
      invariant |rounds| <= maxRounds
      invariant RoundsOk(less, self, known, k, alpha, query, rounds)
      invariant IsTop(less, k, KnownAfter(self, known, query, rounds), shortlist)
      invariant SeenOk(self, KnownAfter(self, known, query, rounds), shortlist, seen)
      invariant queried == {self} + Ids(Asked(rounds))
      decreases maxRounds - |rounds|
    {
      var batch := SelectBatch(shortlist, queried, alpha);
      OrderedDistinct(less, shortlist);
      UnqueriedAre(shortlist, queried, alpha, batch);
      if |batch| == 0 { return; }
      var round := Round(shortlist, batch);
      KnownGrows(self, known, query, rounds, round);
      RoundAdded(less, self, known, k, alpha, query, rounds, round);
      ghost var now := KnownAfter(self, known, query, rounds);
      shortlist, seen, queried := ProbeAndRank(less, self, k, now, query, shortlist, seen, queried, batch);
      rounds := rounds + [round];
    }
  }

  lemma StartSeen<K(!new)>(less: (K, K) -> bool, self: K, k: nat, known: map<K, Contact<K>>, start: seq<Contact<K>>)
    requires IsTop(less, k, known, start) && self !in known
    ensures SeenOk(self, known, start, {self} + Ids(start))
  {
    forall c | c in start
      ensures IsKnown(known, c)
    {
    }
  }

  lemma RoundAdded<K>(less: (K, K) -> bool, self: K, known: map<K, Contact<K>>, k: nat, alpha: nat,
                      query: Contact<K> -> seq<Contact<K>>, rounds: seq<Round<K>>, round: Round<K>)
    requires RoundsOk(less, self, known, k, alpha, query, rounds)
    requires IsTop(less, k, KnownAfter(self, known, query, rounds), round.shortlist)
    requires Unqueried(round.shortlist, {self} + Ids(Asked(rounds)), alpha, round.batch) && round.batch != []
    ensures RoundsOk(less, self, known, k, alpha, query, rounds + [round])
    ensures Ids(Asked(rounds + [round])) == Ids(Asked(rounds)) + Ids(round.batch)
  {
    assert (rounds + [round])[..|rounds|] == rounds;
    forall i: nat | i < |rounds + [round]|
      ensures RoundOk(less, self, known, k, alpha, query, rounds + [round], i)
    {
      if i < |rounds| {
        assert (rounds + [round])[..i] == rounds[..i];
        assert RoundOk(less, self, known, k, alpha, query, rounds, i);
      }
    }
  }

  /** What a lookup promises: the shortlist is the k closest, in order, of everything the table
      and the replies named; each round went by the same rule; no id is probed twice and self
      never; at most alpha probes a round and cap rounds; and stopping before the cap means that
      every contact returned was probed. */
  ghost predicate Converged<K>(less: (K, K) -> bool, self: K, table: seq<Contact<K>>, k: nat, alpha: nat, cap: nat,
                               query: Contact<K> -> seq<Contact<K>>, shortlist: seq<Contact<K>>, rounds: seq<Round<K>>)
  {
    && IsTop(less, k, Known(self, table + Replies(query, Asked(rounds))), shortlist)
    && RoundsOk(less, self, Known(self, table), k, alpha, query, rounds)
    && Distinct(Asked(rounds)) && self !in Ids(Asked(rounds))
    && |rounds| <= cap && |Asked(rounds)| <= alpha * cap
    && (|rounds| < cap ==> forall c | c in shortlist :: c.id in Ids(Asked(rounds)))
  }

  lemma Converges<K(!new)>(less: (K, K) -> bool, self: K, table: seq<Contact<K>>, k: nat, alpha: nat, cap: nat,
                     query: Contact<K> -> seq<Contact<K>>, shortlist: seq<Contact<K>>, rounds: seq<Round<K>>)
    requires StrictOrder(less) && RoundsOk(less, self, Known(self, table), k, alpha, query, rounds) && |rounds| <= cap
    requires IsTop(less, k, KnownAfter(self, Known(self, table), query, rounds), shortlist)
    requires |rounds| < cap ==> forall c | c in shortlist :: c.id in Ids(Asked(rounds))
    ensures Converged(less, self, table, k, alpha, cap, query, shortlist, rounds)
  {
    AskedOnce(less, self, Known(self, table), k, alpha, query, rounds);
    LearnedPlus(self, map[], table, Replies(query, Asked(rounds)));
    ProbesBounded(less, self, Known(self, table), k, alpha, cap, query, rounds);
  }

  lemma ProbesBounded<K>(less: (K, K) -> bool, self: K, known: map<K, Contact<K>>, k: nat, alpha: nat, cap: nat,
                         query: Contact<K> -> seq<Contact<K>>, rounds: seq<Round<K>>)
    requires RoundsOk(less, self, known, k, alpha, query, rounds) && |rounds| <= cap
    ensures |rounds| <= |Asked(rounds)| <= alpha * cap
  {
    forall i: nat | i < |rounds|
      ensures 0 < |rounds[i].batch| <= alpha
    {
      assert RoundOk(less, self, known, k, alpha, query, rounds, i);
    }
    AskedCount(rounds, alpha);
    Product(alpha, |rounds|, cap);
  }

  lemma Product(a: nat, m: nat, n: nat)
    requires m <= n
    ensures a * m <= a * n
  {
  }

  // ---- finding the closest node ---------------------------------------------------------------------

  /** Unless it is the goal, c names some other node than self that is strictly closer. */
  ghost predicate NamesCloser<K>(less: (K, K) -> bool, self: K, query: Contact<K> -> seq<Contact<K>>, goal: K,
                                 c: Contact<K>) {
    c.id == goal || exists r :: r in query(c) && r.id != self && less(r.id, c.id)
  }

  lemma {:induction false} HeardIsKnown<K>(self: K, known: map<K, Contact<K>>, cs: seq<Contact<K>>, r: Contact<K>)
    requires r in cs && r.id != self
    ensures r.id in Learned(self, known, cs)
  {
    var n := |cs| - 1;
    if r != cs[n] {
      assert cs == cs[..n] + [cs[n]];
      HeardIsKnown(self, known, cs[..n], r);
    }
  }

  lemma {:induction false} ReplyIsHeard<K>(query: Contact<K> -> seq<Contact<K>>, asked: seq<Contact<K>>,
                                           c: Contact<K>, r: Contact<K>)
    requires c in asked && r in query(c)
    ensures r in Replies(query, asked)
  {
    var n := |asked| - 1;
    if c != asked[n] {
      assert asked == asked[..n] + [asked[n]];
      ReplyIsHeard(query, asked[..n], c, r);
    }
  }

  lemma TopIsClosest<K(!new)>(less: (K, K) -> bool, k: nat, known: map<K, Contact<K>>, r: seq<Contact<K>>, id: K)
    requires StrictOrder(less) && IsTop(less, k, known, r) && r != [] && id in known
    ensures id == r[0].id || less(r[0].id, id)
  {
    if HasId(r, id) {
      var j :| 0 <= j < |r| && r[j].id == id;
    }
  }

  /** If every probed node other than the goal can name a node closer than itself, a lookup that
      stopped before the cap with a nonempty answer has the goal at its head. */
  lemma {:induction false} FindsGoal<K(!new)>(less: (K, K) -> bool, self: K, table: seq<Contact<K>>, k: nat,
                                              alpha: nat, cap: nat, query: Contact<K> -> seq<Contact<K>>,
                                              shortlist: seq<Contact<K>>, rounds: seq<Round<K>>, goal: K)
    requires StrictOrder(less) && Converged(less, self, table, k, alpha, cap, query, shortlist, rounds)
    requires |rounds| < cap && shortlist != []
    requires forall c | c in Asked(rounds) :: NamesCloser(less, self, query, goal, c)
    ensures shortlist[0].id == goal
  {
    assert shortlist[0] in shortlist;
    var c :| c in Asked(rounds) && c.id == shortlist[0].id;
    assert NamesCloser(less, self, query, goal, c);
    if c.id != goal {
      var r :| r in query(c) && r.id != self && less(r.id, c.id);
      ReplyIsHeard(query, Asked(rounds), c, r);
      HeardIsKnown(self, map[], table + Replies(query, Asked(rounds)), r);
      TopIsClosest(less, k, Known(self, table + Replies(query, Asked(rounds))), shortlist, r.id);
    }
  }
}
