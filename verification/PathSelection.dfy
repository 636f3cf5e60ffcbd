/** Choosing relays in distinct subnets (internal/routing/routing.go:163-312, 427-474). Ids,
    addresses and subnets are named by numbers: ids in their string order, so the empty id is
    0, and subnet is whatever grouping subnetKey computes from an address. */
module PathSelection {
  datatype Peer = Peer(id: nat, address: nat, latency: int, active: bool, relayCapable: bool, pubKey: seq<bv8>)

  datatype Hop = Hop(nodeId: nat, address: nat, pubKey: seq<bv8>)

  datatype Error = NoDestination | InvalidHopCount | InsufficientRelays

  datatype Result<+T> = Ok(value: T) | Err(error: Error)

  type Subnet = nat

  function Min(a: nat, b: nat): nat { if a < b then a else b }

  // ---- what a selection is measured by --------------------------------------------------------

  function Subnets(subnet: nat -> Subnet, ps: seq<Peer>): set<Subnet> { set p | p in ps :: subnet(p.address) }

  function Ids(ps: seq<Peer>): set<nat> { set p | p in ps :: p.id }

  predicate DistinctIds(ps: seq<Peer>) { forall i, j :: 0 <= i < j < |ps| ==> ps[i].id != ps[j].id }

  predicate DistinctSubnets(subnet: nat -> Subnet, ps: seq<Peer>) {
    forall i, j :: 0 <= i < j < |ps| ==> subnet(ps[i].address) != subnet(ps[j].address)
  }

  /** Pairwise different subnets, none of them in used. */
  predicate Diverse(subnet: nat -> Subnet, used: set<Subnet>, ps: seq<Peer>) {
    DistinctSubnets(subnet, ps) && forall p | p in ps :: subnet(p.address) !in used
  }

  // ---- the two passes ----------------------------------------------------------------------------

  /** Pass 1: in order, one relay for every subnet not yet used, at most n. */
  function FirstPass(subnet: nat -> Subnet, ps: seq<Peer>, used: set<Subnet>, n: nat): seq<Peer> {
    if ps == [] || n == 0 then []
    else if subnet(ps[0].address) in used then FirstPass(subnet, ps[1..], used, n)
    else [ps[0]] + FirstPass(subnet, ps[1..], used + {subnet(ps[0].address)}, n - 1)
  }

  /** Pass 2: in order, relays not yet picked, at most n. */
  function SecondPass(ps: seq<Peer>, ids: set<nat>, n: nat): seq<Peer> {
    if ps == [] || n == 0 then []
    else if ps[0].id in ids then SecondPass(ps[1..], ids, n)
    else [ps[0]] + SecondPass(ps[1..], ids + {ps[0].id}, n - 1)
  }

  function Selected(subnet: nat -> Subnet, ps: seq<Peer>, n: nat, destAddr: nat): seq<Peer> {
    var first := FirstPass(subnet, ps, {subnet(destAddr)}, n);
    first + SecondPass(ps, Ids(first), n - Min(n, |first|))
  }

  lemma OldElement(all: set<nat>, rest: set<nat>, used: set<nat>, s: nat)
    requires all == {s} + rest && s in used
    ensures all - used == rest - used
  {
  }

  lemma NewElement(all: set<nat>, rest: set<nat>, used: set<nat>, s: nat)
    requires all == {s} + rest && s !in used
    ensures |all - used| == 1 + |rest - (used + {s})|
  {
    assert all - used == {s} + (rest - (used + {s}));
  }

  // ---- pass 1 attains every subnet it can ---------------------------------------------------------

  lemma SubnetsHead(subnet: nat -> Subnet, ps: seq<Peer>)
    requires ps != []
    ensures Subnets(subnet, ps) == {subnet(ps[0].address)} + Subnets(subnet, ps[1..])
  {
    assert ps == [ps[0]] + ps[1..];
  }

  /** How often a list meets a key for the first time. */
  function News(keys: seq<nat>, used: set<nat>): nat {
    if keys == [] then 0
    else if keys[0] in used then News(keys[1..], used)
    else 1 + News(keys[1..], used + {keys[0]})
  }

  function ToSet(keys: seq<nat>): set<nat> { set k | k in keys }

  lemma ToSetHead(keys: seq<nat>)
    requires keys != []
    ensures ToSet(keys) == {keys[0]} + ToSet(keys[1..])
  {
    assert keys == [keys[0]] + keys[1..];
  }

  lemma {:induction false} NewsCount(keys: seq<nat>, used: set<nat>)
    ensures News(keys, used) == |ToSet(keys) - used|
  {
    if keys == [] {
      assert ToSet(keys) - used == {};
    } else {
      ToSetHead(keys);
      if keys[0] in used {
        NewsCount(keys[1..], used);
        OldElement(ToSet(keys), ToSet(keys[1..]), used, keys[0]);
      } else {
        NewsCount(keys[1..], used + {keys[0]});
        NewElement(ToSet(keys), ToSet(keys[1..]), used, keys[0]);
      }
    }
  }

  function SubnetKeys(subnet: nat -> Subnet, ps: seq<Peer>): seq<nat> {
    if ps == [] then [] else [subnet(ps[0].address)] + SubnetKeys(subnet, ps[1..])
  }

  function IdKeys(ps: seq<Peer>): seq<nat> { if ps == [] then [] else [ps[0].id] + IdKeys(ps[1..]) }

  lemma {:induction false} SubnetKeysAre(subnet: nat -> Subnet, ps: seq<Peer>)
    ensures ToSet(SubnetKeys(subnet, ps)) == Subnets(subnet, ps)
  {
    if ps != [] {
      SubnetsHead(subnet, ps);
      SubnetKeysAre(subnet, ps[1..]);
      ToSetHead(SubnetKeys(subnet, ps));
    }
  }

  lemma {:induction false} IdKeysAre(ps: seq<Peer>)
    ensures ToSet(IdKeys(ps)) == Ids(ps)
  {
    if ps != [] {
      IdsHead(ps);
      IdKeysAre(ps[1..]);
      ToSetHead(IdKeys(ps));
    }
  }

  lemma {:induction false} FirstPassNews(subnet: nat -> Subnet, ps: seq<Peer>, used: set<Subnet>, n: nat)
    ensures |FirstPass(subnet, ps, used, n)| == Min(n, News(SubnetKeys(subnet, ps), used))
  {
    if ps != [] && n > 0 {
      FirstPassNews(subnet, ps[1..], used, n);
      FirstPassNews(subnet, ps[1..], used + {subnet(ps[0].address)}, n - 1);
    }
  }

  lemma {:induction false} FirstPassCount(subnet: nat -> Subnet, ps: seq<Peer>, used: set<Subnet>, n: nat)
    ensures |FirstPass(subnet, ps, used, n)| == Min(n, |Subnets(subnet, ps) - used|)
  {
    FirstPassNews(subnet, ps, used, n);
    NewsCount(SubnetKeys(subnet, ps), used);
    SubnetKeysAre(subnet, ps);
  }

  lemma {:induction false} FirstPassDiverse(subnet: nat -> Subnet, ps: seq<Peer>, used: set<Subnet>, n: nat)
    ensures Diverse(subnet, used, FirstPass(subnet, ps, used, n))
    ensures forall p | p in FirstPass(subnet, ps, used, n) :: p in ps
  {
    if ps != [] && n > 0 {
      var s := subnet(ps[0].address);
      if s in used {
        FirstPassDiverse(subnet, ps[1..], used, n);
      } else {
        FirstPassDiverse(subnet, ps[1..], used + {s}, n - 1);
        HeadDiverse(subnet, ps[0], used, FirstPass(subnet, ps[1..], used + {s}, n - 1));
      }
    }
  }

  lemma HeadDiverse(subnet: nat -> Subnet, p: Peer, used: set<Subnet>, rest: seq<Peer>)
    requires subnet(p.address) !in used && Diverse(subnet, used + {subnet(p.address)}, rest)
    ensures Diverse(subnet, used, [p] + rest)
  {
    forall i | 0 <= i < |rest|
      ensures subnet(rest[i].address) != subnet(p.address)
    {
      assert rest[i] in rest;
    }
  }

  lemma {:induction false} DiverseCount(subnet: nat -> Subnet, ps: seq<Peer>)
    requires DistinctSubnets(subnet, ps)
    ensures |Subnets(subnet, ps)| == |ps|
  {
    if ps != [] {
      SubnetsHead(subnet, ps);
      DiverseCount(subnet, ps[1..]);
      assert subnet(ps[0].address) !in Subnets(subnet, ps[1..]);
    }
  }

  // ---- pass 2 fills the path without repeating a relay ---------------------------------------------

  lemma {:induction false} SecondPassSound(ps: seq<Peer>, ids: set<nat>, n: nat)
    ensures var r := SecondPass(ps, ids, n); DistinctIds(r) && forall p | p in r :: p in ps && p.id !in ids
  {
    if ps != [] && n > 0 {
      if ps[0].id in ids {
        SecondPassSound(ps[1..], ids, n);
      } else {
        SecondPassSound(ps[1..], ids + {ps[0].id}, n - 1);
        HeadNew(ps[0], ids, SecondPass(ps[1..], ids + {ps[0].id}, n - 1));
      }
    }
  }

  lemma IdsHead(ps: seq<Peer>)
    requires ps != []
    ensures Ids(ps) == {ps[0].id} + Ids(ps[1..])
  {
    assert ps == [ps[0]] + ps[1..];
  }

  lemma {:induction false} SecondPassNews(ps: seq<Peer>, ids: set<nat>, n: nat)
    ensures |SecondPass(ps, ids, n)| == Min(n, News(IdKeys(ps), ids))
  {
    if ps != [] && n > 0 {
      SecondPassNews(ps[1..], ids, n);
      SecondPassNews(ps[1..], ids + {ps[0].id}, n - 1);
    }
  }

  lemma SecondPassCount(ps: seq<Peer>, ids: set<nat>, n: nat)
    ensures |SecondPass(ps, ids, n)| == Min(n, |Ids(ps) - ids|)
  {
    SecondPassNews(ps, ids, n);
    NewsCount(IdKeys(ps), ids);
    IdKeysAre(ps);
  }

  lemma HeadNew(p: Peer, ids: set<nat>, rest: seq<Peer>)
    requires DistinctIds(rest) && forall q | q in rest :: q.id !in ids + {p.id}
    ensures DistinctIds([p] + rest)
  {
    forall i | 0 <= i < |rest|
      ensures rest[i].id != p.id
    {
      assert rest[i] in rest;
    }
  }

  lemma {:induction false} IdCount(ps: seq<Peer>)
    requires DistinctIds(ps)
    ensures |Ids(ps)| == |ps|
  {
    if ps != [] {
      IdsHead(ps);
      IdCount(ps[1..]);
      assert ps[0].id !in Ids(ps[1..]);
    }
  }

  /** Relays with different ids that lie in different subnets are different relays. */
  lemma DiverseIds(subnet: nat -> Subnet, ps: seq<Peer>, r: seq<Peer>)
    requires DistinctIds(ps) && DistinctSubnets(subnet, r) && forall p | p in r :: p in ps
    ensures DistinctIds(r)
  {
    forall i, j | 0 <= i < j < |r|
      ensures r[i].id != r[j].id
    {
      assert r[i] in ps && r[j] in ps;
      assert r[i] != r[j];
    }
  }

  /** The selection takes relays of the list, and none twice. */
  lemma {:induction false} SelectedSound(subnet: nat -> Subnet, ps: seq<Peer>, n: nat, destAddr: nat)
    requires DistinctIds(ps)
    ensures var r := Selected(subnet, ps, n, destAddr); DistinctIds(r) && forall p | p in r :: p in ps
  {
    var first := FirstPass(subnet, ps, {subnet(destAddr)}, n);
    var left := n - Min(n, |first|);
    FirstPassDiverse(subnet, ps, {subnet(destAddr)}, n);
    DiverseIds(subnet, ps, first);
    SecondPassSound(ps, Ids(first), left);
    JoinDistinct(first, SecondPass(ps, Ids(first), left));
  }

  lemma {:induction false} FirstPassAtMost(subnet: nat -> Subnet, ps: seq<Peer>, used: set<Subnet>, n: nat)
    ensures |FirstPass(subnet, ps, used, n)| <= n
  {
    if ps != [] && n > 0 {
      FirstPassAtMost(subnet, ps[1..], used, n);
      FirstPassAtMost(subnet, ps[1..], used + {subnet(ps[0].address)}, n - 1);
    }
  }

  lemma FirstPassIds(subnet: nat -> Subnet, ps: seq<Peer>, used: set<Subnet>, n: nat)
    requires DistinctIds(ps)
    ensures DistinctIds(FirstPass(subnet, ps, used, n)) && forall p | p in FirstPass(subnet, ps, used, n) :: p in ps
  {
    FirstPassDiverse(subnet, ps, used, n);
    DiverseIds(subnet, ps, FirstPass(subnet, ps, used, n));
  }

  /** It takes as many as asked for, or as there are. */
  lemma {:induction false} SelectedCount(subnet: nat -> Subnet, ps: seq<Peer>, n: nat, destAddr: nat)
    requires DistinctIds(ps)
    ensures |Selected(subnet, ps, n, destAddr)| == Min(n, |ps|)
  {
    var used := {subnet(destAddr)};
    var first := FirstPass(subnet, ps, used, n);
    FirstPassAtMost(subnet, ps, used, n);
    FirstPassIds(subnet, ps, used, n);
    SecondPassFills(ps, first, n - |first|);
  }

  lemma SecondPassFills(ps: seq<Peer>, first: seq<Peer>, left: nat)
    requires DistinctIds(ps) && DistinctIds(first) && forall p | p in first :: p in ps
    ensures |first| <= |ps| && |SecondPass(ps, Ids(first), left)| == Min(left, |ps| - |first|)
  {
    SecondPassCount(ps, Ids(first), left);
    IdCount(ps);
    IdCount(first);
    Remaining(Ids(first), Ids(ps));
  }

  lemma Remaining(a: set<nat>, b: set<nat>)
    requires a <= b
    ensures |b - a| == |b| - |a| && |a| <= |b|
  {
    assert b == a + (b - a);
  }

  lemma JoinDistinct(a: seq<Peer>, b: seq<Peer>)
    requires DistinctIds(a) && DistinctIds(b) && forall p | p in b :: p.id !in Ids(a)
    ensures DistinctIds(a + b)
  {
    forall i, j | 0 <= i < |a| && 0 <= j < |b|
      ensures a[i].id != b[j].id
    {
      assert a[i] in a && b[j] in b;
      assert a[i].id in Ids(a);
    }
  }

  // ---- diversity ---------------------------------------------------------------------------------------

  /** The first pass alone attains as many subnets as can be. */
  lemma FirstPassAttains(subnet: nat -> Subnet, ps: seq<Peer>, used: set<Subnet>, n: nat)
    ensures var first, all := Subnets(subnet, FirstPass(subnet, ps, used, n)), Subnets(subnet, ps) - used;
      first <= all && |first| == Min(n, |all|) && first - used == first
  {
    FirstPassCount(subnet, ps, used, n);
    FirstPassDiverse(subnet, ps, used, n);
    DiverseCount(subnet, FirstPass(subnet, ps, used, n));
  }

  /** For any n, the selection uses as many subnets other than the destination's as n relays
      could: n, or all there are. */
  lemma {:induction false} SelectedAttains(subnet: nat -> Subnet, ps: seq<Peer>, n: nat, destAddr: nat)
    requires DistinctIds(ps)
    ensures |Subnets(subnet, Selected(subnet, ps, n, destAddr)) - {subnet(destAddr)}| ==
            Min(n, |Subnets(subnet, ps) - {subnet(destAddr)}|)
  {
    var used := {subnet(destAddr)};
    var first, all := FirstPass(subnet, ps, used, n), Subnets(subnet, ps) - used;
    var r := Selected(subnet, ps, n, destAddr);
    FirstPassAttains(subnet, ps, used, n);
    FirstPassCount(subnet, ps, used, n);
    if |first| == n {
      assert SecondPass(ps, Ids(first), 0) == [];
      assert r == first;
    } else {
      FullSubset(Subnets(subnet, first), all);
      SelectedSound(subnet, ps, n, destAddr);
      Between(subnet, first, r, ps, used);
    }
  }

  /** What lies between a list that attains everything and the whole list attains everything. */
  lemma Between(subnet: nat -> Subnet, first: seq<Peer>, r: seq<Peer>, ps: seq<Peer>, used: set<Subnet>)
    requires Subnets(subnet, first) == Subnets(subnet, ps) - used && first <= r && forall p | p in r :: p in ps
    ensures Subnets(subnet, r) - used == Subnets(subnet, ps) - used
  {
    assert forall p | p in first :: p in r;
    assert Subnets(subnet, first) <= Subnets(subnet, r) <= Subnets(subnet, ps);
  }

  lemma FullSubset(a: set<Subnet>, b: set<Subnet>)
    requires a <= b && |a| == |b|
    ensures a == b
  {
    assert |b - a| == |b| - |a|;
    assert b == a + (b - a);
  }

  /** A path of n relays lies in pairwise different subnets, none the destination's, if and only
      if the relays offer at least n such subnets. */
  lemma {:induction false} SelectedDiverseIff(subnet: nat -> Subnet, ps: seq<Peer>, n: nat, destAddr: nat)
    requires DistinctIds(ps) && n <= |ps|
    ensures Diverse(subnet, {subnet(destAddr)}, Selected(subnet, ps, n, destAddr)) <==>
            n <= |Subnets(subnet, ps) - {subnet(destAddr)}|
  {
    var used := {subnet(destAddr)};
    var r := Selected(subnet, ps, n, destAddr);
    SelectedAttains(subnet, ps, n, destAddr);
    SelectedCount(subnet, ps, n, destAddr);
    if Diverse(subnet, used, r) {
      DiverseCount(subnet, r);
      assert Subnets(subnet, r) - used == Subnets(subnet, r);
    }
    if n <= |Subnets(subnet, ps) - used| {
      FirstPassCount(subnet, ps, used, n);
      FirstPassDiverse(subnet, ps, used, n);
      assert r == FirstPass(subnet, ps, used, n);
    }
  }

  // ---- the loops -----------------------------------------------------------------------------------------

  lemma FirstPassAt(subnet: nat -> Subnet, ps: seq<Peer>, i: nat, used: set<Subnet>, n: nat, picked: seq<Peer>)
    requires i < |ps| && n > 0
    ensures var s := subnet(ps[i].address);
      picked + FirstPass(subnet, ps[i..], used, n) ==
        if s in used then picked + FirstPass(subnet, ps[i + 1..], used, n)
        else picked + [ps[i]] + FirstPass(subnet, ps[i + 1..], used + {s}, n - 1)
  {
    assert ps[i..][1..] == ps[i + 1..];
  }

  lemma SecondPassAt(ps: seq<Peer>, i: nat, ids: set<nat>, n: nat, picked: seq<Peer>)
    requires i < |ps| && n > 0
    ensures picked + SecondPass(ps[i..], ids, n) ==
      if ps[i].id in ids then picked + SecondPass(ps[i + 1..], ids, n)
      else picked + [ps[i]] + SecondPass(ps[i + 1..], ids + {ps[i].id}, n - 1)
  {
    assert ps[i..][1..] == ps[i + 1..];
  }

  lemma IdsSnoc(ps: seq<Peer>, p: Peer)
    ensures Ids(ps + [p]) == Ids(ps) + {p.id}
  {
  }

  method SelectDiverse(subnet: nat -> Subnet, ordered: seq<Peer>, n: nat, destAddr: nat) returns (picked: seq<Peer>)
    ensures picked == Selected(subnet, ordered, n, destAddr)
  {
    var ids: set<nat>;
    picked, ids := OnePerSubnet(subnet, ordered, n, destAddr);
    ghost var first := picked;
    var i := 0;
    while i < |ordered| && |picked| < n
      invariant i <= |ordered| && |first| <= |picked| <= n
      invariant first + SecondPass(ordered, Ids(first), n - |first|) ==
                picked + SecondPass(ordered[i..], ids, n - |picked|)
    {
      var r := ordered[i];
      SecondPassAt(ordered, i, ids, n - |picked|, picked);
      if r.id !in ids {
        picked := picked + [r];
        ids := ids + {r.id};
      }
      i := i + 1;
    }
  }

  /** The first pass, with the ids it picked. */
  method OnePerSubnet(subnet: nat -> Subnet, ordered: seq<Peer>, n: nat, destAddr: nat)
    returns (picked: seq<Peer>, ids: set<nat>)
    ensures picked == FirstPass(subnet, ordered, {subnet(destAddr)}, n) && |picked| <= n && ids == Ids(picked)
  {
    var used := {subnet(destAddr)};
    picked, ids := [], {};
    var i := 0;
    while i < |ordered| && |picked| < n
      invariant i <= |ordered| && |picked| <= n && ids == Ids(picked)
      invariant FirstPass(subnet, ordered, {subnet(destAddr)}, n) ==
                picked + FirstPass(subnet, ordered[i..], used, n - |picked|)
    {
      var r := ordered[i];
      FirstPassAt(subnet, ordered, i, used, n - |picked|, picked);
      IdsSnoc(picked, r);
      if subnet(r.address) !in used {
        used := used + {subnet(r.address)};
        picked := picked + [r];
        ids := ids + {r.id};
      }
      i := i + 1;
    }
  }

  predicate Usable(r: Peer) { r.active && r.relayCapable && |r.pubKey| > 0 }

  function Filtered(keep: Peer -> bool, ps: seq<Peer>): seq<Peer> {
    if ps == [] then [] else Filtered(keep, ps[..|ps| - 1]) + if keep(ps[|ps| - 1]) then [ps[|ps| - 1]] else []
  }

  lemma {:induction false} FilteredAre(keep: Peer -> bool, ps: seq<Peer>)
    ensures forall p :: p in Filtered(keep, ps) <==> p in ps && keep(p)
  {
    if ps != [] {
      FilteredAre(keep, ps[..|ps| - 1]);
      assert ps == ps[..|ps| - 1] + [ps[|ps| - 1]];
    }
  }

  lemma {:induction false} FilteredDistinct(keep: Peer -> bool, ps: seq<Peer>)
    requires DistinctIds(ps)
    ensures DistinctIds(Filtered(keep, ps))
  {
    if ps != [] {
      var front := ps[..|ps| - 1];
      FilteredDistinct(keep, front);
      FilteredAre(keep, front);
      forall i | 0 <= i < |Filtered(keep, front)|
        ensures Filtered(keep, front)[i].id != ps[|ps| - 1].id
      {
        var p := Filtered(keep, front)[i];
        assert p in front;
      }
    }
  }

  /** The subnets, other than the destination's, of the usable relays. */
  function RelaySubnets(subnet: nat -> Subnet, destAddr: nat, relays: seq<Peer>): set<Subnet> {
    (set r | r in relays && Usable(r) :: subnet(r.address)) - {subnet(destAddr)}
  }

  lemma OneMoreRelay(subnet: nat -> Subnet, destAddr: nat, relays: seq<Peer>, i: nat)
    requires i < |relays|
    ensures var now, s := RelaySubnets(subnet, destAddr, relays[..i]), subnet(relays[i].address);
      RelaySubnets(subnet, destAddr, relays[..i + 1]) ==
      if Usable(relays[i]) && s != subnet(destAddr) then now + {s} else now
  {
    assert relays[..i + 1] == relays[..i] + [relays[i]];
  }

  /** n subnets have been counted among the first i relays. */
  ghost predicate Counted(subnet: nat -> Subnet, destAddr: nat, relays: seq<Peer>, i: nat, seen: set<Subnet>, n: nat)
    requires i <= |relays|
  {
    var now := RelaySubnets(subnet, destAddr, relays[..i]);
    seen == {subnet(destAddr)} + now && n == |now|
  }

  lemma NoneCounted(subnet: nat -> Subnet, destAddr: nat, relays: seq<Peer>)
    ensures Counted(subnet, destAddr, relays, 0, {subnet(destAddr)}, 0)
  {
    assert RelaySubnets(subnet, destAddr, relays[..0]) == {};
  }

  lemma CountOneMore(subnet: nat -> Subnet, destAddr: nat, relays: seq<Peer>, i: nat, seen: set<Subnet>, n: nat,
                     seen': set<Subnet>, n': nat)
    requires i < |relays| && Counted(subnet, destAddr, relays, i, seen, n)
    requires var s := subnet(relays[i].address);
      if Usable(relays[i]) && s !in seen then seen' == seen + {s} && n' == n + 1 else seen' == seen && n' == n
    ensures Counted(subnet, destAddr, relays, i + 1, seen', n')
  {
    var now, s := RelaySubnets(subnet, destAddr, relays[..i]), subnet(relays[i].address);
    OneMoreRelay(subnet, destAddr, relays, i);
    if s in now { assert now + {s} == now; }
  }

  /** Counts the distinct subnets of usable relays, the destination's own excepted. */
  method DistinctSubnetRelays(subnet: nat -> Subnet, destAddr: nat, relays: seq<Peer>) returns (n: nat)
    ensures n == |RelaySubnets(subnet, destAddr, relays)|
  {
    var seen := {subnet(destAddr)};
    n := 0;
    NoneCounted(subnet, destAddr, relays);
    for i := 0 to |relays|
      invariant Counted(subnet, destAddr, relays, i, seen, n)
    {
      var r := relays[i];
      ghost var seen0, n0 := seen, n;
      if r.active && r.relayCapable && |r.pubKey| > 0 && subnet(r.address) !in seen {
        seen := seen + {subnet(r.address)};
        n := n + 1;
      }
      CountOneMore(subnet, destAddr, relays, i, seen0, n0, seen, n);
    }
    assert relays[..|relays|] == relays;
  }

  /** The longest path that a number of distinct subnets and the cap allow. */
  function Affordable(distinct: nat, maxHops: int): (hops: nat)
    ensures hops <= distinct && hops <= 3 && (maxHops > 0 ==> hops <= maxHops) && (distinct > 0 ==> hops > 0)
  {
    var hops := if distinct >= 4 then 3 else if distinct >= 2 then 2 else distinct;
    var cap := if maxHops <= 0 || maxHops > 3 then 3 else maxHops;
    if hops > cap then cap else hops
  }

  /** That length, or 0 if the floor cannot be met. */
  function HopsFor(distinct: nat, minHops: int, maxHops: int): (hops: nat)
    ensures hops <= distinct && hops <= 3 && (maxHops > 0 ==> hops <= maxHops) && (hops > 0 ==> hops >= minHops)
    ensures hops == 0 <==> distinct == 0 || Affordable(distinct, maxHops) < minHops
  {
    if minHops > 0 && Affordable(distinct, maxHops) < minHops then 0 else Affordable(distinct, maxHops)
  }

  function Pow2(n: nat): nat { if n == 0 then 1 else 2 * Pow2(n - 1) }

  /** The cap on a path: at most 3 hops, or fewer if so configured. */
  function HopCap(maxHops: int): nat { if 0 < maxHops <= 3 then maxHops else 3 }

  /** h is the largest length up to cap that the subnets pay for: each hop after the first doubles
      the price. */
  ghost predicate IsLongest(distinct: nat, cap: nat, h: nat) {
    h <= cap && (h > 0 ==> Pow2(h - 1) <= distinct) && (h < cap ==> Pow2(h) > distinct)
  }

  /** The adaptive length is that length for a cap of at most 3, or 0 if it falls short of the
      floor; and there is just one such length. */
  lemma {:induction false} HopsForIs(distinct: nat, minHops: int, maxHops: int) returns (h: nat)
    ensures IsLongest(distinct, HopCap(maxHops), h)
    ensures HopsFor(distinct, minHops, maxHops) == if h < minHops then 0 else h
    ensures forall l: nat | IsLongest(distinct, HopCap(maxHops), l) :: l == h
  {
    assert Pow2(0) == 1 && Pow2(1) == 2 && Pow2(2) == 4;
    h := Affordable(distinct, maxHops);
    forall l: nat | IsLongest(distinct, HopCap(maxHops), l)
      ensures l == h
    {
      assert l == 0 || l == 1 || l == 2 || l == 3;
    }
  }

  method AdaptiveHops(subnet: nat -> Subnet, destAddr: nat, relays: seq<Peer>, minHops: int, maxHops: int)
    returns (hops: nat)
    ensures hops == HopsFor(|RelaySubnets(subnet, destAddr, relays)|, minHops, maxHops)
    ensures exists h: nat ::
              && IsLongest(|RelaySubnets(subnet, destAddr, relays)|, HopCap(maxHops), h)
              && hops == if h < minHops then 0 else h
  {
    ghost var _ := HopsForIs(|RelaySubnets(subnet, destAddr, relays)|, minHops, maxHops);
    var distinct := DistinctSubnetRelays(subnet, destAddr, relays);
    if distinct >= 4 {
      hops := 3;
    } else if distinct >= 2 {
      hops := 2;
    } else if distinct == 1 {
      hops := 1;
    } else {
      return 0;
    }
    var cap := maxHops;
    if cap <= 0 || cap > 3 { cap := 3; }
    if hops > cap { hops := cap; }
    if minHops > 0 && hops < minHops { return 0; }
  }
}
