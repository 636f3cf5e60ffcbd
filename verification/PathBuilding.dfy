/** Building an onion path (internal/routing/routing.go:163-230, 337-474) and the diversity it
    has when its length is adaptive. Shuffles are arbitrary permutations. */
module PathBuilding {
  import opened Basics
  import opened PathSelection

  // ---- ordering the relays -----------------------------------------------------------------------

  /** Faster, or equally fast with an id that is not larger. */
  predicate Before(a: Peer, b: Peer) { a.latency < b.latency || (a.latency == b.latency && a.id <= b.id) }

  predicate Sorted(ps: seq<Peer>) { forall i, j :: 0 <= i < j < |ps| ==> Before(ps[i], ps[j]) }

  /** Fastest first, ties by id. */
  method SortByLatency(ps: seq<Peer>) returns (r: seq<Peer>)
    ensures Sorted(r) && multiset(r) == multiset(ps)
    ensures forall i, j :: 0 <= i < j < |r| ==>
              r[i].latency < r[j].latency || (r[i].latency == r[j].latency && r[i].id <= r[j].id)
  {
    r := [];
    for i := 0 to |ps|
      invariant Sorted(r) && multiset(r) == multiset(ps[..i])
    {
      r := InsertByLatency(r, ps[i]);
      assert ps[..i + 1] == ps[..i] + [ps[i]];
    }
    assert ps[..|ps|] == ps;
  }

  method InsertByLatency(ps: seq<Peer>, x: Peer) returns (r: seq<Peer>)
    requires Sorted(ps)
    ensures Sorted(r) && multiset(r) == multiset(ps) + multiset{x}
  {
    var p: nat := |ps|;
    while p > 0 && !Before(ps[p - 1], x)
      invariant p <= |ps| && forall j :: p <= j < |ps| ==> Before(x, ps[j])
    {
      p := p - 1;
    }
    assert ps == ps[..p] + ps[p..];
    InsertedSorted(ps[..p], x, ps[p..]);
    r := ps[..p] + [x] + ps[p..];
  }

  lemma InsertedSorted(a: seq<Peer>, x: Peer, b: seq<Peer>)
    requires Sorted(a + b) && (a != [] ==> Before(a[|a| - 1], x)) && forall j :: 0 <= j < |b| ==> Before(x, b[j])
    ensures Sorted(a + [x] + b)
  {
    var old', r := a + b, a + [x] + b;
    forall j | 0 <= j < |a|
      ensures Before(a[j], x)
    {
      assert j < |a| - 1 ==> Before(old'[j], old'[|a| - 1]);
    }
    forall i, j | 0 <= i < j < |r|
      ensures Before(r[i], r[j])
    {
      if i != |a| && j != |a| {
        assert Before(old'[if i < |a| then i else i - 1], old'[if j < |a| then j else j - 1]);
      }
    }
  }

  /** From a list in that order, the first pass takes the fastest relay of each subnet it takes, and
      every subnet it leaves out has only slower ones. */
  lemma {:induction false} TakesFastest(subnet: nat -> Subnet, ps: seq<Peer>, used: set<Subnet>, n: nat, p: Peer,
                                        r: Peer)
    requires Sorted(ps) && p in FirstPass(subnet, ps, used, n) && r in ps && subnet(r.address) !in used
    ensures subnet(r.address) == subnet(p.address) ==> p == r || Before(p, r)
    ensures subnet(r.address) !in Subnets(subnet, FirstPass(subnet, ps, used, n)) ==> Before(p, r)
  {
    var h, rest := ps[0], ps[1..];
    var s := subnet(h.address);
    TailSorted(ps);
    assert ps == [h] + rest;
    if s in used {
      TakesFastest(subnet, rest, used, n, p, r);
    } else if p == h {
      HeadFirst(ps, r);
      assert s in Subnets(subnet, FirstPass(subnet, ps, used, n));
    } else {
      var more := FirstPass(subnet, rest, used + {s}, n - 1);
      assert FirstPass(subnet, ps, used, n) == [h] + more && p in more;
      FirstPassDiverse(subnet, rest, used + {s}, n - 1);
      SubnetsOfBoth(subnet, h, more);
      if subnet(r.address) != s {
        assert r in rest;
        TakesFastest(subnet, rest, used + {s}, n - 1, p, r);
      }
    }
  }

  lemma SubnetsOfBoth(subnet: nat -> Subnet, h: Peer, more: seq<Peer>)
    ensures Subnets(subnet, [h] + more) == {subnet(h.address)} + Subnets(subnet, more)
  {
    SubnetsHead(subnet, [h] + more);
    assert ([h] + more)[1..] == more;
  }

  lemma TailSorted(ps: seq<Peer>)
    requires Sorted(ps) && ps != []
    ensures Sorted(ps[1..])
  {
  }

  lemma HeadFirst(ps: seq<Peer>, r: Peer)
    requires Sorted(ps) && r in ps
    ensures r == ps[0] || Before(ps[0], r)
  {
    var j :| 0 <= j < |ps| && ps[j] == r;
  }

  ghost predicate Permutes(f: seq<Peer> -> seq<Peer>) {
    forall ps: seq<Peer> {:trigger f(ps)} :: multiset(f(ps)) == multiset(ps)
  }

  /** The seeded shuffles of the three tiers. */
  datatype Shuffles = Shuffles(fast: seq<Peer> -> seq<Peer>, reserve: seq<Peer> -> seq<Peer>,
                               deprio: seq<Peer> -> seq<Peer>) {
    ghost predicate Valid() { Permutes(fast) && Permutes(reserve) && Permutes(deprio) }
  }

  datatype Options = Options(shuffles: Shuffles, deprioritize: set<nat>, exitNear: set<nat>)

  function Rejected(reject: Peer -> bool, ps: seq<Peer>): seq<Peer> {
    if ps == [] then [] else Rejected(reject, ps[..|ps| - 1]) + if reject(ps[|ps| - 1]) then [] else [ps[|ps| - 1]]
  }

  lemma {:induction false} RejectedAre(reject: Peer -> bool, ps: seq<Peer>)
    ensures forall p | p in Rejected(reject, ps) :: !reject(p)
  {
    if ps != [] { RejectedAre(reject, ps[..|ps| - 1]); }
  }

  lemma {:induction false} PartitionAll(f: Peer -> bool, ps: seq<Peer>)
    ensures multiset(Rejected(f, ps) + Filtered(f, ps)) == multiset(ps)
  {
    if ps != [] {
      var front, x := ps[..|ps| - 1], ps[|ps| - 1];
      PartitionAll(f, front);
      assert ps == front + [x];
      assert multiset(Rejected(f, ps) + Filtered(f, ps)) ==
             multiset(Rejected(f, front) + Filtered(f, front)) + multiset{x};
    }
  }

  /** The three tiers of an ordering: the faster half of the main relays, the slower half, then
      the deprioritized ones. */
  ghost predicate Tiered(deprioritized: Peer -> bool, r: seq<Peer>, mainN: nat, fastN: nat) {
    && fastN <= mainN <= |r| && fastN == (mainN + 1) / 2
    && (forall i :: 0 <= i < mainN ==> !deprioritized(r[i])) && (forall i :: mainN <= i < |r| ==> deprioritized(r[i]))
    && (forall i, j :: 0 <= i < fastN <= j < mainN ==> Before(r[i], r[j]))
  }

  ghost predicate TieredBy(deprioritized: Peer -> bool, r: seq<Peer>) {
    exists mainN: nat, fastN: nat :: Tiered(deprioritized, r, mainN, fastN)
  }

  /** r is a permutation of the eligible relays in that order. */
  ghost predicate InTiers(host: nat -> nat, deprioritize: set<nat>, eligible: seq<Peer>, r: seq<Peer>) {
    && multiset(r) == multiset(eligible)
    && TieredBy((p: Peer) => host(p.address) in deprioritize, r)
  }

  lemma TiersOrdered(deprioritized: Peer -> bool, main: seq<Peer>, fast: seq<Peer>, reserve: seq<Peer>,
                     deprio: seq<Peer>, fastN: nat)
    requires Sorted(main) && fastN == (|main| + 1) / 2
    requires multiset(fast) == multiset(main[..fastN]) && multiset(reserve) == multiset(main[fastN..])
    requires (forall p | p in main :: !deprioritized(p)) && forall p | p in deprio :: deprioritized(p)
    ensures |fast| == fastN && Tiered(deprioritized, fast + reserve + deprio, |main|, fastN)
    ensures multiset(fast + reserve + deprio) == multiset(main) + multiset(deprio)
  {
    assert main == main[..fastN] + main[fastN..];
    assert |fast| == |multiset(fast)| && |reserve| == |multiset(reserve)|;
    forall i | 0 <= i < |fast|
      ensures exists k :: 0 <= k < fastN && main[k] == fast[i]
    {
      assert fast[i] in multiset(main[..fastN]);
    }
    forall i | 0 <= i < |reserve|
      ensures exists k :: fastN <= k < |main| && main[k] == reserve[i]
    {
      assert reserve[i] in multiset(main[fastN..]);
    }
  }

  /** Orders eligible relays by tier; within a tier the order is whatever the shuffle gives. */
  method TierOrder(host: nat -> nat, eligible: seq<Peer>, opt: Options) returns (r: seq<Peer>)
    requires opt.shuffles.Valid()
    ensures InTiers(host, opt.deprioritize, eligible, r)
  {
    var deprioritized := (p: Peer) => host(p.address) in opt.deprioritize;
    var main, deprio: seq<Peer> := [], [];
    for i := 0 to |eligible|
      invariant main == Rejected(deprioritized, eligible[..i]) && deprio == Filtered(deprioritized, eligible[..i])
    {
      assert eligible[..i + 1][..i] == eligible[..i];
      if deprioritized(eligible[i]) { deprio := deprio + [eligible[i]]; } else { main := main + [eligible[i]]; }
    }
    assert eligible[..|eligible|] == eligible;
    PartitionAll(deprioritized, eligible);
    RejectedAre(deprioritized, eligible);
    FilteredAre(deprioritized, eligible);
    r := Shuffled(deprioritized, main, deprio, opt.shuffles);
  }

  method Shuffled(ghost deprioritized: Peer -> bool, main: seq<Peer>, deprio: seq<Peer>, shuffles: Shuffles)
    returns (r: seq<Peer>)
    requires shuffles.Valid() && (forall p | p in main :: !deprioritized(p))
    requires forall p | p in deprio :: deprioritized(p)
    ensures multiset(r) == multiset(main) + multiset(deprio) && TieredBy(deprioritized, r)
  {
    var sorted := SortByLatency(main);
    assert |multiset(sorted)| == |sorted|;
    var n := (|sorted| + 1) / 2;
    var fast, reserve, last := shuffles.fast(sorted[..n]), shuffles.reserve(sorted[n..]), shuffles.deprio(deprio);
    forall p | p in sorted
      ensures !deprioritized(p)
    {
      assert p in multiset(main);
    }
    forall p | p in last
      ensures deprioritized(p)
    {
      assert p in multiset(deprio);
    }
    TiersOrdered(deprioritized, sorted, fast, reserve, last, n);
    r := fast + reserve + last;
  }

  // ---- the exit hop -----------------------------------------------------------------------------------

  /** The first position from i on whose id is in near and not in ids. */
  function FirstNear(ps: seq<Peer>, near: set<nat>, ids: set<nat>, i: nat): (k: nat)
    requires i <= |ps|
    ensures i <= k <= |ps| && (k < |ps| ==> ps[k].id in near && ps[k].id !in ids)
    ensures forall j :: i <= j < k ==> !(ps[j].id in near && ps[j].id !in ids)
    decreases |ps| - i
  {
    if i == |ps| || (ps[i].id in near && ps[i].id !in ids) then i else FirstNear(ps, near, ids, i + 1)
  }

  function Biased(picked: seq<Peer>, ordered: seq<Peer>, near: set<nat>): seq<Peer> {
    if near == {} || picked == [] then picked
    else
      var last := |picked| - 1;
      var i, k := FirstNear(picked, near, {}, 0), FirstNear(ordered, near, Ids(picked), 0);
      if picked[last].id in near then picked
      else if i < |picked| then picked[i := picked[last]][last := picked[i]]
      else if k < |ordered| then picked[last := ordered[k]]
      else picked
  }

  /** Moves a relay near the destination to the exit, or puts one there. */
  method BiasExit(picked: array<Peer>, ordered: seq<Peer>, near: set<nat>)
    modifies picked
    ensures picked[..] == Biased(old(picked[..]), ordered, near)
  {
    if near == {} || picked.Length == 0 { return; }
    var last := picked.Length - 1;
    if picked[last].id in near { return; }
    for i := 0 to picked.Length
      invariant picked[..] == old(picked[..])
      invariant FirstNear(picked[..], near, {}, 0) == FirstNear(picked[..], near, {}, i)
    {
      if picked[i].id in near {
        picked[i], picked[last] := picked[last], picked[i];
        return;
      }
    }
    var inPath: set<nat> := {};
    for i := 0 to picked.Length
      invariant picked[..] == old(picked[..]) && inPath == Ids(picked[..i])
    {
      inPath := inPath + {picked[i].id};
      assert picked[..i + 1] == picked[..i] + [picked[i]];
    }
    assert picked[..picked.Length] == picked[..];
    for k := 0 to |ordered|
      invariant picked[..] == old(picked[..])
      invariant FirstNear(ordered, near, inPath, 0) == FirstNear(ordered, near, inPath, k)
    {
      if ordered[k].id in near && ordered[k].id !in inPath {
        picked[last] := ordered[k];
        return;
      }
    }
  }

  /** The biased path has the same length, still no relay twice, and only listed relays. */
  lemma {:induction false} BiasedSound(picked: seq<Peer>, ordered: seq<Peer>, near: set<nat>)
    requires DistinctIds(picked) && forall p | p in picked :: p in ordered
    ensures var r := Biased(picked, ordered, near);
      |r| == |picked| && DistinctIds(r) && forall p | p in r :: p in ordered
  {
  }

  /** The exit is a relay near the destination if and only if some listed relay is. */
  lemma {:induction false} ExitIsNear(picked: seq<Peer>, ordered: seq<Peer>, near: set<nat>)
    requires picked != [] && forall p | p in picked :: p in ordered
    ensures var r := Biased(picked, ordered, near);
      r != [] && (r[|r| - 1].id in near <==> exists p :: p in ordered && p.id in near)
  {
  }

  /** The relays before the exit keep their different subnets; if the path already had a relay
      near the destination, the whole path does. */
  lemma {:induction false} BiasedDiverse(subnet: nat -> Subnet, used: set<Subnet>, picked: seq<Peer>,
                                         ordered: seq<Peer>, near: set<nat>)
    requires Diverse(subnet, used, picked) && picked != []
    ensures var r := Biased(picked, ordered, near);
      && |r| == |picked| && Diverse(subnet, used, r[..|r| - 1])
      && (near == {} || (exists p :: p in picked && p.id in near) ==> Diverse(subnet, used, r))
  {
  }

  // ---- whole paths ---------------------------------------------------------------------------------------

  /** The path leads through the picked relays, in order, to dest. */
  predicate Through(path: seq<Hop>, picked: seq<Peer>, dest: Peer) {
    && |path| == |picked| + 1 && path[|picked|] == Hop(dest.id, dest.address, dest.pubKey)
    && forall i :: 0 <= i < |picked| ==> path[i] == Hop(picked[i].id, picked[i].address, picked[i].pubKey)
  }

  function Eligible(dest: Peer, relays: seq<Peer>): seq<Peer> { Filtered(r => Usable(r) && r.id != dest.id, relays) }

  /** Subnets, other than the destination's, that a path to dest can use. */
  function Offered(subnet: nat -> Subnet, dest: Peer, relays: seq<Peer>): set<Subnet> {
    Subnets(subnet, Eligible(dest, relays)) - {subnet(dest.address)}
  }

  /** dest names a node that packets can be sealed for. */
  predicate Addressable(dest: Peer) { dest.id != 0 && dest.pubKey != [] }

  /** Some relay can serve on a path to dest. */
  predicate AnyRelay(dest: Peer, relays: seq<Peer>) {
    exists p :: p in relays && p.active && p.relayCapable && p.pubKey != [] && p.id != dest.id
  }

  /** picked is a selection of n relays out of the eligible ones. */
  ghost predicate Selection(subnet: nat -> Subnet, dest: Peer, relays: seq<Peer>, n: nat, picked: seq<Peer>) {
    && DistinctIds(picked) && |picked| == Min(n, |Eligible(dest, relays)|)
    && (forall p | p in picked :: p in relays && p.active && p.relayCapable && p.pubKey != [] && p.id != dest.id)
  }

  ghost predicate MostDiverse(subnet: nat -> Subnet, dest: Peer, relays: seq<Peer>, n: nat, picked: seq<Peer>) {
    && |Subnets(subnet, picked) - {subnet(dest.address)}| == Min(n, |Offered(subnet, dest, relays)|)
    && (Diverse(subnet, {subnet(dest.address)}, picked) <==>
          Min(n, |Eligible(dest, relays)|) <= |Offered(subnet, dest, relays)|)
  }

  lemma EligibleAre(dest: Peer, relays: seq<Peer>)
    ensures forall p :: p in Eligible(dest, relays) <==> p in relays && Usable(p) && p.id != dest.id
    ensures DistinctIds(relays) ==> DistinctIds(Eligible(dest, relays))
  {
    var keep := (r: Peer) => Usable(r) && r.id != dest.id;
    assert Eligible(dest, relays) == Filtered(keep, relays) by { SameFilter(dest, relays, keep); }
    FilteredAre(keep, relays);
    if DistinctIds(relays) { FilteredDistinct(keep, relays); }
  }

  lemma {:induction false} SameFilter(dest: Peer, relays: seq<Peer>, keep: Peer -> bool)
    requires forall r :: keep(r) == (Usable(r) && r.id != dest.id)
    ensures Eligible(dest, relays) == Filtered(keep, relays)
  {
    if relays != [] { SameFilter(dest, relays[..|relays| - 1], keep); }
  }

  lemma {:induction false} OnceEach(a: seq<Peer>, x: Peer)
    requires DistinctIds(a)
    ensures multiset(a)[x] <= 1
  {
    if a != [] {
      OnceEach(a[1..], x);
      assert a == [a[0]] + a[1..];
      assert a[0] !in a[1..];
    }
  }

  lemma TwiceIn(b: seq<Peer>, i: nat, j: nat)
    requires i < j < |b| && b[i] == b[j]
    ensures multiset(b)[b[i]] >= 2
  {
    assert b[..j][i] == b[i];
    assert b == b[..j] + b[j..] && b[j..][0] == b[j];
    assert b[i] in multiset(b[..j]) && b[i] in multiset(b[j..]);
  }

  lemma PermutedIds(a: seq<Peer>, b: seq<Peer>)
    requires multiset(a) == multiset(b) && DistinctIds(a)
    ensures DistinctIds(b) && |a| == |b|
  {
    assert |multiset(a)| == |multiset(b)|;
    SameMembers(a, b);
    forall i, j | 0 <= i < j < |b|
      ensures b[i].id != b[j].id
    {
      assert b[i] in a && b[j] in a;
      OnceEach(a, b[i]);
      if b[i] == b[j] { TwiceIn(b, i, j); }
    }
  }

  /** Whatever order the eligible relays are put in, the selection is as diverse as can be. */
  lemma {:induction false} SelectionOfAnyOrder(subnet: nat -> Subnet, dest: Peer, relays: seq<Peer>,
                                               ordered: seq<Peer>, hopCount: nat)
    requires DistinctIds(relays) && multiset(ordered) == multiset(Eligible(dest, relays))
    ensures var n := Min(hopCount, |Eligible(dest, relays)|);
      var picked := Selected(subnet, ordered, n, dest.address);
      && Selection(subnet, dest, relays, hopCount, picked) && MostDiverse(subnet, dest, relays, hopCount, picked)
      && DistinctIds(ordered) && forall p | p in picked :: p in ordered
  {
    var eligible := Eligible(dest, relays);
    var n := Min(hopCount, |eligible|);
    EligibleAre(dest, relays);
    PermutedIds(eligible, ordered);
    SameMembers(eligible, ordered);
    assert Subnets(subnet, ordered) == Subnets(subnet, eligible);
    SelectedSound(subnet, ordered, n, dest.address);
    SelectedCount(subnet, ordered, n, dest.address);
    SelectedAttains(subnet, ordered, n, dest.address);
    SelectedDiverseIff(subnet, ordered, n, dest.address);
    OfferedBound(subnet, dest, relays);
  }

  lemma SameMembers(a: seq<Peer>, b: seq<Peer>)
    requires multiset(a) == multiset(b)
    ensures forall p :: p in a <==> p in b
  {
    forall p
      ensures p in a <==> p in b
    {
      assert p in a <==> p in multiset(a);
      assert p in b <==> p in multiset(b);
    }
  }

  lemma {:induction false} SubnetsBound(subnet: nat -> Subnet, ps: seq<Peer>)
    ensures |Subnets(subnet, ps)| <= |ps|
  {
    if ps != [] {
      SubnetsHead(subnet, ps);
      SubnetsBound(subnet, ps[1..]);
    }
  }

  lemma OfferedBound(subnet: nat -> Subnet, dest: Peer, relays: seq<Peer>)
    ensures |Offered(subnet, dest, relays)| <= |Eligible(dest, relays)|
  {
    SubnetsBound(subnet, Eligible(dest, relays));
    var all := Subnets(subnet, Eligible(dest, relays));
    assert all == Offered(subnet, dest, relays) + (all * {subnet(dest.address)});
  }

  // ---- the planner ------------------------------------------------------------------------------------

  method CollectEligible(dest: Peer, relays: seq<Peer>) returns (eligible: seq<Peer>)
    ensures eligible == Eligible(dest, relays)
  {
    eligible := [];
    for i := 0 to |relays|
      invariant eligible == Eligible(dest, relays[..i])
    {
      assert relays[..i + 1][..i] == relays[..i];
      EligibleOneMore(dest, relays[..i + 1]);
      var r := relays[i];
      if r.active && r.relayCapable && |r.pubKey| > 0 && r.id != dest.id { eligible := eligible + [r]; }
    }
    assert relays[..|relays|] == relays;
  }

  lemma EligibleOneMore(dest: Peer, relays: seq<Peer>)
    requires relays != []
    ensures var front, r := relays[..|relays| - 1], relays[|relays| - 1];
      Eligible(dest, relays) == Eligible(dest, front) + if Usable(r) && r.id != dest.id then [r] else []
  {
    var keep := (r: Peer) => Usable(r) && r.id != dest.id;
    SameFilter(dest, relays, keep);
    SameFilter(dest, relays[..|relays| - 1], keep);
  }

  lemma EligibleIff(dest: Peer, relays: seq<Peer>)
    ensures Eligible(dest, relays) != [] <==> AnyRelay(dest, relays)
  {
    EligibleAre(dest, relays);
    if Eligible(dest, relays) != [] { assert Eligible(dest, relays)[0] in Eligible(dest, relays); }
  }

  method HopList(picked: seq<Peer>, dest: Peer) returns (path: seq<Hop>)
    ensures Through(path, picked, dest)
  {
    path := [];
    for i := 0 to |picked|
      invariant |path| == i
      invariant forall j :: 0 <= j < i ==> path[j] == Hop(picked[j].id, picked[j].address, picked[j].pubKey)
    {
      path := path + [Hop(picked[i].id, picked[i].address, picked[i].pubKey)];
    }
    path := path + [Hop(dest.id, dest.address, dest.pubKey)];
  }

  /** The fastest-first path. picked names its relays. */
  method BuildPath(subnet: nat -> Subnet, dest: Peer, relays: seq<Peer>, hopCount: int)
    returns (r: Result<seq<Hop>>, ghost picked: seq<Peer>)
    ensures r == Err(NoDestination) <==> !Addressable(dest)
    ensures r == Err(InvalidHopCount) <==> Addressable(dest) && hopCount < 0
    ensures r == Err(InsufficientRelays) <==> Addressable(dest) && hopCount > 0 && !AnyRelay(dest, relays)
    ensures r.Ok? ==> hopCount >= 0 && Through(r.value, picked, dest)
    ensures r.Ok? && DistinctIds(relays) ==>
            Selection(subnet, dest, relays, hopCount, picked) && MostDiverse(subnet, dest, relays, hopCount, picked)
    ensures r.Ok? ==> FastestFirst(subnet, dest, relays, hopCount, picked)
  {
    picked := [];
    if dest.id == 0 || |dest.pubKey| == 0 { return Err(NoDestination), []; }
    if hopCount < 0 { return Err(InvalidHopCount), []; }
    var eligible := CollectEligible(dest, relays);
    EligibleIff(dest, relays);
    if hopCount > 0 && |eligible| == 0 { return Err(InsufficientRelays), []; }
    var chosen := FastestRelays(subnet, dest, relays, eligible, hopCount);
    var path := HopList(chosen, dest);
    return Ok(path), chosen;
  }

  /** picked is the selection of n relays from the eligible ones, fastest first. */
  ghost predicate FastestFirst(subnet: nat -> Subnet, dest: Peer, relays: seq<Peer>, n: nat, picked: seq<Peer>) {
    exists ordered ::
      && Sorted(ordered) && multiset(ordered) == multiset(Eligible(dest, relays))
      && picked == Selected(subnet, ordered, Min(n, |ordered|), dest.address)
  }

  method FastestRelays(subnet: nat -> Subnet, dest: Peer, ghost relays: seq<Peer>, eligible: seq<Peer>, hopCount: nat)
    returns (picked: seq<Peer>)
    requires eligible == Eligible(dest, relays)
    ensures FastestFirst(subnet, dest, relays, hopCount, picked)
    ensures DistinctIds(relays) ==>
            Selection(subnet, dest, relays, hopCount, picked) && MostDiverse(subnet, dest, relays, hopCount, picked)
  {
    var ordered := SortByLatency(eligible);
    assert |ordered| == |eligible| by { assert |multiset(ordered)| == |multiset(eligible)|; }
    var n := hopCount;
    if n > |ordered| { n := |ordered|; }
    assert n == Min(hopCount, |ordered|);
    picked := SelectDiverse(subnet, ordered, n, dest.address);
    if DistinctIds(relays) { SelectionOfAnyOrder(subnet, dest, relays, ordered, hopCount); }
  }

  /** What a tiered path promises of its subnets: with nothing near the destination it is as
      diverse as can be; otherwise the relays before the exit are diverse when enough subnets
      are offered. */
  ghost predicate DiversePath(subnet: nat -> Subnet, dest: Peer, relays: seq<Peer>, n: nat, near: set<nat>,
                              picked: seq<Peer>) {
    && Selection(subnet, dest, relays, n, picked)
    && (near == {} ==> MostDiverse(subnet, dest, relays, n, picked))
    && (picked != [] && near != {} && |picked| <= |Offered(subnet, dest, relays)| ==>
          Diverse(subnet, {subnet(dest.address)}, picked[..|picked| - 1]))
  }

  /** And of its exit: it is near the destination exactly if some eligible relay is. */
  ghost predicate TieredPath(subnet: nat -> Subnet, dest: Peer, relays: seq<Peer>, n: nat, near: set<nat>,
                             picked: seq<Peer>) {
    && DiversePath(subnet, dest, relays, n, near, picked)
    && (picked != [] && near != {} ==>
          (picked[|picked| - 1].id in near <==>
            exists p :: p in relays && Usable(p) && p.id != dest.id && p.id in near))
  }

  lemma TieredPathHolds(subnet: nat -> Subnet, dest: Peer, relays: seq<Peer>, ordered: seq<Peer>, hopCount: nat,
                        near: set<nat>, n: nat, chosen: seq<Peer>, picked: seq<Peer>)
    requires DistinctIds(relays) && multiset(ordered) == multiset(Eligible(dest, relays))
    requires n == Min(hopCount, |Eligible(dest, relays)|)
    requires chosen == Selected(subnet, ordered, n, dest.address) && picked == Biased(chosen, ordered, near)
    ensures TieredPath(subnet, dest, relays, hopCount, near, picked)
  {
    SelectionOfAnyOrder(subnet, dest, relays, ordered, hopCount);
    EligibleAre(dest, relays);
    SameMembers(ordered, Eligible(dest, relays));
    BiasedSound(chosen, ordered, near);
    if chosen != [] && near != {} {
      ExitIsNear(chosen, ordered, near);
      if Diverse(subnet, {subnet(dest.address)}, chosen) {
        BiasedDiverse(subnet, {subnet(dest.address)}, chosen, ordered, near);
      }
    }
  }

  /** The tiered path. picked names its relays, ordered the order they were selected from. */
  method BuildPathTiered(subnet: nat -> Subnet, host: nat -> nat, dest: Peer, relays: seq<Peer>, hopCount: int,
                         opt: Options)
    returns (r: Result<seq<Hop>>, ghost picked: seq<Peer>, ghost ordered: seq<Peer>)
    requires opt.shuffles.Valid()
    ensures r == Err(NoDestination) <==> !Addressable(dest)
    ensures r == Err(InvalidHopCount) <==> Addressable(dest) && hopCount < 0
    ensures r == Err(InsufficientRelays) <==> Addressable(dest) && hopCount > 0 && !AnyRelay(dest, relays)
    ensures r.Ok? ==> hopCount >= 0 && Through(r.value, picked, dest)
    ensures r.Ok? ==> InTiers(host, opt.deprioritize, Eligible(dest, relays), ordered)
    ensures r.Ok? ==>
              picked == Biased(Selected(subnet, ordered, Min(hopCount, |ordered|), dest.address), ordered, opt.exitNear)
    ensures r.Ok? && DistinctIds(relays) ==> TieredPath(subnet, dest, relays, hopCount, opt.exitNear, picked)
  {
    if dest.id == 0 || |dest.pubKey| == 0 { return Err(NoDestination), [], []; }
    if hopCount < 0 { return Err(InvalidHopCount), [], []; }
    var eligible := CollectEligible(dest, relays);
    EligibleIff(dest, relays);
    if hopCount > 0 && |eligible| == 0 { return Err(InsufficientRelays), [], []; }
    var slots;
    slots, ordered := TieredRelays(subnet, host, dest, relays, eligible, hopCount, opt);
    var path := HopList(slots, dest);
    return Ok(path), slots, ordered;
  }

  /** The relays of a tiered path. */
  method TieredRelays(subnet: nat -> Subnet, host: nat -> nat, dest: Peer, ghost relays: seq<Peer>,
                      eligible: seq<Peer>, hopCount: nat, opt: Options)
    returns (picked: seq<Peer>, ghost ordered: seq<Peer>)
    requires opt.shuffles.Valid() && eligible == Eligible(dest, relays)
    ensures InTiers(host, opt.deprioritize, eligible, ordered)
    ensures picked == Biased(Selected(subnet, ordered, Min(hopCount, |ordered|), dest.address), ordered, opt.exitNear)
    ensures DistinctIds(relays) ==> TieredPath(subnet, dest, relays, hopCount, opt.exitNear, picked)
  {
    var n := hopCount;
    if n > |eligible| { n := |eligible|; }
    var order := TierOrder(host, eligible, opt);
    assert |order| == |eligible| by { assert |multiset(order)| == |multiset(eligible)|; }
    ordered := order;
    ghost var chosen := Selected(subnet, order, n, dest.address);
    picked := ChooseRelays(subnet, dest, order, n, opt.exitNear);
    if DistinctIds(relays) {
      TieredPathHolds(subnet, dest, relays, ordered, hopCount, opt.exitNear, n, chosen, picked);
    }
  }

  method ChooseRelays(subnet: nat -> Subnet, dest: Peer, ordered: seq<Peer>, n: nat, near: set<nat>)
    returns (r: seq<Peer>)
    ensures r == Biased(Selected(subnet, ordered, n, dest.address), ordered, near)
  {
    var chosen := SelectDiverse(subnet, ordered, n, dest.address);
    var slots := new Peer[|chosen|](i requires 0 <= i < |chosen| => chosen[i]);
    assert slots[..] == chosen;
    BiasExit(slots, ordered, near);
    r := slots[..];
  }

  // ---- adaptive length ---------------------------------------------------------------------------------

  /** Every usable relay that bears the destination's id lies in the destination's subnet or
      shares its subnet with an eligible relay. */
  ghost predicate CountsOnlyUsable(subnet: nat -> Subnet, dest: Peer, relays: seq<Peer>) {
    forall r | r in relays && Usable(r) && r.id == dest.id ::
      subnet(r.address) in Subnets(subnet, Eligible(dest, relays)) + {subnet(dest.address)}
  }

  lemma OfferedAreCounted(subnet: nat -> Subnet, dest: Peer, relays: seq<Peer>)
    ensures Offered(subnet, dest, relays) <= RelaySubnets(subnet, dest.address, relays)
    ensures |Offered(subnet, dest, relays)| <= |RelaySubnets(subnet, dest.address, relays)|
    ensures forall s | s in RelaySubnets(subnet, dest.address, relays) - Offered(subnet, dest, relays) ::
              exists r :: r in relays && Usable(r) && r.id == dest.id && subnet(r.address) == s
  {
    EligibleAre(dest, relays);
    var counted, offered := RelaySubnets(subnet, dest.address, relays), Offered(subnet, dest, relays);
    SubsetCard(offered, counted);
    forall s | s in counted - offered
      ensures exists r :: r in relays && Usable(r) && r.id == dest.id && subnet(r.address) == s
    {
      var r :| r in relays && Usable(r) && subnet(r.address) == s;
      assert r !in Eligible(dest, relays);
    }
  }

  /** The count behind the adaptive length agrees with what a path can use if and only if every
      usable relay that bears the destination's id lies in the destination's subnet or shares
      its subnet with an eligible relay. */
  lemma {:induction false} CountAgreesIff(subnet: nat -> Subnet, dest: Peer, relays: seq<Peer>)
    ensures |RelaySubnets(subnet, dest.address, relays)| == |Offered(subnet, dest, relays)| <==>
            CountsOnlyUsable(subnet, dest, relays)
  {
    var counted, offered := RelaySubnets(subnet, dest.address, relays), Offered(subnet, dest, relays);
    OfferedAreCounted(subnet, dest, relays);
    if |counted| == |offered| {
      FullSubset(offered, counted);
      forall r | r in relays && Usable(r) && r.id == dest.id
        ensures subnet(r.address) in Subnets(subnet, Eligible(dest, relays)) + {subnet(dest.address)}
      {
        assert subnet(r.address) == subnet(dest.address) || subnet(r.address) in counted;
      }
    }
    if CountsOnlyUsable(subnet, dest, relays) {
      EligibleAre(dest, relays);
      forall s | s in counted
        ensures s in offered
      {
        var r :| r in relays && Usable(r) && subnet(r.address) == s;
        if r.id != dest.id { assert r in Eligible(dest, relays); }
      }
      assert counted == offered;
    }
  }

  /** The destination adds at most one subnet to the count. */
  lemma CountsAtMostOneMore(subnet: nat -> Subnet, dest: Peer, relays: seq<Peer>)
    requires DistinctIds(relays)
    ensures |RelaySubnets(subnet, dest.address, relays)| <= |Offered(subnet, dest, relays)| + 1
  {
    var counted, offered := RelaySubnets(subnet, dest.address, relays), Offered(subnet, dest, relays);
    OfferedAreCounted(subnet, dest, relays);
    forall s, t | s in counted - offered && t in counted - offered
      ensures s == t
    {
      var p :| p in relays && Usable(p) && p.id == dest.id && subnet(p.address) == s;
      var q :| q in relays && Usable(q) && q.id == dest.id && subnet(q.address) == t;
    }
    AtMostOneMore(offered, counted);
  }

  lemma AtMostOneMore(a: set<Subnet>, b: set<Subnet>)
    requires a <= b && forall s, t | s in b - a && t in b - a :: s == t
    ensures |b| <= |a| + 1
  {
    assert b == a + (b - a);
    if s :| s in b - a { assert b - a == {s}; }
  }

  /** When the adaptive length can be walked in different subnets: exactly if it stays below the
      count, or the count agrees with what a path can use. */
  lemma {:induction false} AdaptiveFitsIff(subnet: nat -> Subnet, dest: Peer, relays: seq<Peer>, minHops: int,
                                           maxHops: int, hops: nat)
    requires DistinctIds(relays) && hops == HopsFor(|RelaySubnets(subnet, dest.address, relays)|, minHops, maxHops)
    ensures hops <= |Offered(subnet, dest, relays)| <==>
            hops < |RelaySubnets(subnet, dest.address, relays)| || CountsOnlyUsable(subnet, dest, relays)
  {
    CountAgreesIff(subnet, dest, relays);
    CountsAtMostOneMore(subnet, dest, relays);
    OfferedAreCounted(subnet, dest, relays);
  }

  /** An adaptive path that is not refused has the adaptive length and lies in pairwise different
      subnets, none of them the destination's, only if that many subnets can be used; and if they
      can, it does, up to an exit chosen for being near the destination. */
  lemma {:induction false} AdaptivePathDiverse(subnet: nat -> Subnet, dest: Peer, relays: seq<Peer>, minHops: int,
                                               maxHops: int, hops: nat, near: set<nat>, picked: seq<Peer>)
    requires DistinctIds(relays)
    requires hops == HopsFor(|RelaySubnets(subnet, dest.address, relays)|, minHops, maxHops) && hops > 0
    requires DiversePath(subnet, dest, relays, hops, near, picked)
    ensures |picked| == hops && Diverse(subnet, {subnet(dest.address)}, picked) ==>
            hops <= |Offered(subnet, dest, relays)|
    ensures hops <= |Offered(subnet, dest, relays)| ==>
              && |picked| == hops
              && Diverse(subnet, {subnet(dest.address)}, if near == {} then picked else picked[..hops - 1])
    ensures hops <= |Offered(subnet, dest, relays)| <==>
            hops < |RelaySubnets(subnet, dest.address, relays)| || CountsOnlyUsable(subnet, dest, relays)
  {
    AdaptiveFitsIff(subnet, dest, relays, minHops, maxHops, hops);
    OfferedBound(subnet, dest, relays);
    if Diverse(subnet, {subnet(dest.address)}, picked) { DiverseIsOffered(subnet, dest, relays, picked); }
  }

  lemma DiverseIsOffered(subnet: nat -> Subnet, dest: Peer, relays: seq<Peer>, picked: seq<Peer>)
    requires Diverse(subnet, {subnet(dest.address)}, picked)
    requires forall p | p in picked :: p in relays && Usable(p) && p.id != dest.id
    ensures |picked| <= |Offered(subnet, dest, relays)|
  {
    EligibleAre(dest, relays);
    DiverseCount(subnet, picked);
    SubsetCard(Subnets(subnet, picked), Offered(subnet, dest, relays));
  }

  /** Lists on which it fails: two relays of one subnet and one that bears the destination's id at
      an address of its own subnet, which is counted but cannot be used. */
  lemma {:induction false} AdaptiveCountsDestination(subnet: nat -> Subnet, dest: Peer, a: Peer, b: Peer, c: Peer,
                                                     picked: seq<Peer>)
    requires Usable(a) && Usable(b) && Usable(c) && a.id != b.id && a.id != dest.id && b.id != dest.id
    requires c.id == dest.id
    requires subnet(a.address) == subnet(b.address) && subnet(c.address) != subnet(a.address)
    requires subnet(dest.address) != subnet(a.address) && subnet(dest.address) != subnet(c.address)
    requires Selection(subnet, dest, [a, b, c], HopsFor(|RelaySubnets(subnet, dest.address, [a, b, c])|, 0, 0), picked)
    ensures DistinctIds([a, b, c]) && |picked| == 2 && !DistinctSubnets(subnet, picked)
  {
    ThreeRelays(subnet, a, b, c, dest.address);
    EligibleOfThree(dest, a, b, c);
    BothAlike(subnet, dest, a, b, c, picked);
  }

  lemma ThreeRelays(subnet: nat -> Subnet, a: Peer, b: Peer, c: Peer, destAddr: nat)
    requires Usable(a) && Usable(b) && Usable(c) && subnet(a.address) == subnet(b.address)
    requires subnet(c.address) != subnet(a.address)
    requires subnet(destAddr) != subnet(a.address) && subnet(destAddr) != subnet(c.address)
    ensures |RelaySubnets(subnet, destAddr, [a, b, c])| == 2
  {
    var relays := [a, b, c];
    assert a in relays && c in relays;
    assert RelaySubnets(subnet, destAddr, relays) == {subnet(a.address), subnet(c.address)};
  }

  lemma EligibleOfThree(dest: Peer, a: Peer, b: Peer, c: Peer)
    requires Usable(a) && Usable(b) && a.id != dest.id && b.id != dest.id && c.id == dest.id
    ensures Eligible(dest, [a, b, c]) == [a, b]
  {
    EligibleOneMore(dest, [a, b, c]);
    EligibleOneMore(dest, [a, b]);
    EligibleOneMore(dest, [a]);
    assert [a, b, c][..2] == [a, b] && [a, b][..1] == [a] && [a][..0] == [];
  }

  lemma BothAlike(subnet: nat -> Subnet, dest: Peer, a: Peer, b: Peer, c: Peer, picked: seq<Peer>)
    requires Selection(subnet, dest, [a, b, c], 2, picked) && c.id == dest.id && |Eligible(dest, [a, b, c])| == 2
    requires subnet(a.address) == subnet(b.address)
    ensures |picked| == 2 && !DistinctSubnets(subnet, picked)
  {
    assert picked[0] in picked && picked[1] in picked;
    assert picked[0] in [a, b, c] && picked[1] in [a, b, c];
    assert subnet(picked[0].address) == subnet(picked[1].address);
  }
}
