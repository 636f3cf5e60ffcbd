/** The transmit duty-cycle limiter (internal/iface/duty.go:20-102). Times and airtimes are
    integers of nanoseconds; the airtime of a frame and the budget are given. */
module DutyCycle {
  datatype Event = Event(at: int, air: nat)

  function Sum(es: seq<Event>): nat { if es == [] then 0 else Sum(es[..|es| - 1]) + es[|es| - 1].air }

  /** Airtime of the events with lo <= at < hi. */
  function Within(es: seq<Event>, lo: int, hi: int): nat {
    if es == [] then 0
    else Within(es[..|es| - 1], lo, hi) + if lo <= es[|es| - 1].at < hi then es[|es| - 1].air else 0
  }

  predicate InOrder(es: seq<Event>) { forall i, j :: 0 <= i < j < |es| ==> es[i].at <= es[j].at }

  lemma {:induction false} SumPlus(a: seq<Event>, b: seq<Event>)
    ensures Sum(a + b) == Sum(a) + Sum(b)
  {
    if b == [] {
      assert a + b == a;
    } else {
      assert (a + b)[..|a + b| - 1] == a + b[..|b| - 1];
      SumPlus(a, b[..|b| - 1]);
    }
  }

  lemma {:induction false} WithinPlus(a: seq<Event>, b: seq<Event>, lo: int, hi: int)
    ensures Within(a + b, lo, hi) == Within(a, lo, hi) + Within(b, lo, hi)
  {
    if b == [] {
      assert a + b == a;
    } else {
      assert (a + b)[..|a + b| - 1] == a + b[..|b| - 1];
      WithinPlus(a, b[..|b| - 1], lo, hi);
    }
  }

  lemma {:induction false} WithinNone(es: seq<Event>, lo: int, hi: int)
    requires forall i :: 0 <= i < |es| ==> !(lo <= es[i].at < hi)
    ensures Within(es, lo, hi) == 0
  {
    if es != [] { WithinNone(es[..|es| - 1], lo, hi); }
  }

  lemma {:induction false} WithinAll(es: seq<Event>, lo: int, hi: int)
    requires forall i :: 0 <= i < |es| ==> lo <= es[i].at < hi
    ensures Within(es, lo, hi) == Sum(es)
  {
    if es != [] { WithinAll(es[..|es| - 1], lo, hi); }
  }

  lemma {:induction false} WithinAtMost(es: seq<Event>, lo: int, hi: int)
    ensures Within(es, lo, hi) <= Sum(es)
  {
    if es != [] { WithinAtMost(es[..|es| - 1], lo, hi); }
  }

  /** The limit: no half-open interval of one window's length holds more than the budget. */
  ghost predicate Respected(granted: seq<Event>, window: nat, budget: nat) {
    forall lo: int, hi: int | hi - lo == window :: Within(granted, lo, hi) <= budget
  }

  /** What the limiter retains of everything it granted. */
  ghost predicate Retains(granted: seq<Event>, dropped: nat, cut: int, events: seq<Event>) {
    && dropped <= |granted| && events == granted[dropped..]
    && (forall i :: 0 <= i < dropped ==> granted[i].at <= cut)
  }

  /** Within a window that ends now, what was granted is what is retained. */
  lemma RetainedWindow(granted: seq<Event>, dropped: nat, cut: int, events: seq<Event>, lo: int, hi: int)
    requires Retains(granted, dropped, cut, events) && cut < lo
    ensures Within(granted, lo, hi) == Within(events, lo, hi)
  {
    assert granted == granted[..dropped] + events;
    WithinPlus(granted[..dropped], events, lo, hi);
    WithinNone(granted[..dropped], lo, hi);
  }

  /** Granting a frame keeps the limit for every interval, past ones and ones that reach into
      the future alike. */
  lemma {:induction false} GrantKeepsLimit(granted: seq<Event>, dropped: nat, events: seq<Event>, window: nat,
                                           budget: nat, now: int, air: nat)
    requires Respected(granted, window, budget) && Retains(granted, dropped, now - window, events)
    requires Sum(events) + air <= budget
    ensures Respected(granted + [Event(now, air)], window, budget)
  {
    var e := Event(now, air);
    forall lo: int, hi: int | hi - lo == window
      ensures Within(granted + [e], lo, hi) <= budget
    {
      assert (granted + [e])[..|granted|] == granted;
      if lo <= now < hi {
        RetainedWindow(granted, dropped, now - window, events, lo, hi);
        WithinAtMost(events, lo, hi);
      }
    }
  }

  /** The limiter's fields: what it retains, what that adds up to, and the limit it keeps. */
  ghost predicate Accounts(window: nat, budget: nat, events: seq<Event>, spent: int, granted: seq<Event>,
                           dropped: nat, clock: int) {
    && window > 0 && spent == Sum(events) && InOrder(granted)
    && (forall i :: 0 <= i < |granted| ==> granted[i].at <= clock)
    && Retains(granted, dropped, clock - window, events)
    && Respected(granted, window, budget)
  }

  lemma GrantAccounts(window: nat, budget: nat, events: seq<Event>, spent: int, granted: seq<Event>, dropped: nat,
                      now: int, e: Event, events': seq<Event>, spent': int, granted': seq<Event>)
    requires Accounts(window, budget, events, spent, granted, dropped, now) && e.at == now
    requires spent' == spent + e.air <= budget
    requires events' == events + [e] && granted' == granted + [e]
    ensures Accounts(window, budget, events', spent', granted', dropped, now)
  {
    GrantKeepsLimit(granted, dropped, events, window, budget, now, e.air);
    assert events'[..|events|] == events;
  }

  lemma {:induction false} SpentIsWindow(window: nat, budget: nat, events: seq<Event>, spent: int,
                                         granted: seq<Event>, dropped: nat, now: int)
    requires Accounts(window, budget, events, spent, granted, dropped, now) && Recent(events, window, now)
    ensures Within(granted, now - window + 1, now + 1) == spent
  {
    RetainedWindow(granted, dropped, now - window, events, now - window + 1, now + 1);
    WithinAll(events, now - window + 1, now + 1);
  }

  predicate Recent(events: seq<Event>, window: nat, now: int) {
    forall i :: 0 <= i < |events| ==> now - window < events[i].at <= now
  }

  lemma PruneAccounts(window: nat, budget: nat, events: seq<Event>, spent: int, granted: seq<Event>, dropped: nat,
                      clock: int, n: nat, now: int, left: seq<Event>, spent': int, dropped': nat)
    requires Accounts(window, budget, events, spent, granted, dropped, clock) && clock <= now && n <= |events|
    requires (forall j :: 0 <= j < n ==> events[j].at <= now - window) && (n < |events| ==> events[n].at > now - window)
    requires left == events[n..] && spent' == Sum(left) && dropped' == dropped + n
    ensures Accounts(window, budget, left, spent', granted, dropped', now) && Recent(left, window, now)
  {
    PrunedRetains(granted, dropped, clock - window, events, n, now - window);
    forall i | 0 <= i < |left|
      ensures left[i].at <= now
    {
      assert left[i] == granted[dropped + n + i];
    }
  }

  function Clamped(x: int): int { if x < 0 then 0 else x }

  class Limiter {
    const window: nat
    const budget: nat
    var events: seq<Event>
    var spent: int
    /** Every grant so far, and how many of them have been forgotten. */
    ghost var granted: seq<Event>
    ghost var dropped: nat
    ghost var clock: int

    ghost predicate Valid()
      reads this
    {
      Accounts(window, budget, events, spent, granted, dropped, clock)
    }

    constructor (window: nat, budget: nat, now: int)
      requires window > 0
      ensures Valid() && granted == [] && clock == now && this.window == window && this.budget == budget
    {
      this.window, this.budget := window, budget;
      events, spent, granted, dropped, clock := [], 0, [], 0, now;
    }

    /** Drops the events that have left the window ending now; n is how many. */
    method DropAged(now: int) returns (n: nat)
      requires spent == Sum(events)
      modifies this`events, this`spent
      ensures n <= |old(events)| && events == old(events)[n..] && spent == Sum(events)
      ensures forall j :: 0 <= j < n ==> old(events)[j].at <= now - window
      ensures n < |old(events)| ==> old(events)[n].at > now - window
    {
      var cut := now - window;
      n := 0;
      while n < |events| && events[n].at <= cut
        invariant n <= |events| && spent == Sum(events[n..])
        invariant forall j :: 0 <= j < n ==> events[j].at <= cut
        modifies this`spent
      {
        SumFrom(events, n);
        spent := spent - events[n].air;
        n := n + 1;
      }
      if n > 0 { events := events[n..]; }
      spent := Clamped(spent);
    }

    method Prune(now: int)
      requires Valid() && now >= clock
      modifies this
      ensures Valid() && granted == old(granted) && clock == now
      ensures Recent(events, window, now)
    {
      var n := DropAged(now);
      ghost var d := dropped + n;
      PruneAccounts(window, budget, old(events), old(spent), granted, dropped, clock, n, now, events, spent, d);
      dropped, clock := d, now;
    }

    /** Whether a frame of the given airtime may be sent now: exactly if the airtime granted in
        the window ending now leaves room for it. */
    method Allow(now: int, air: nat) returns (ok: bool)
      requires Valid() && now >= clock
      modifies this
      ensures Valid() && clock == now
      ensures ok <==> Within(old(granted), now - window + 1, now + 1) + air <= budget
      ensures granted == if ok then old(granted) + [Event(now, air)] else old(granted)
    {
      Prune(now);
      SpentIsWindow(window, budget, events, spent, granted, dropped, now);
      if spent + air > budget { return false; }
      var e := Event(now, air);
      GrantAccounts(window, budget, events, spent, granted, dropped, now, e, events + [e], spent + air, granted + [e]);
      events := events + [e];
      spent := spent + air;
      granted := granted + [e];
      ok := true;
    }
  }

  lemma SumFrom(es: seq<Event>, i: nat)
    requires i < |es|
    ensures Sum(es[i..]) == es[i].air + Sum(es[i + 1..])
  {
    assert es[i..] == [es[i]] + es[i + 1..];
    SumPlus([es[i]], es[i + 1..]);
    assert [es[i]][..0] == [];
  }

  lemma PrunedRetains(granted: seq<Event>, dropped: nat, was: int, events: seq<Event>, n: nat, cut: int)
    requires Retains(granted, dropped, was, events) && was <= cut && n <= |events| && InOrder(granted)
    requires (forall j :: 0 <= j < n ==> events[j].at <= cut) && (n < |events| ==> events[n].at > cut)
    ensures Retains(granted, dropped + n, cut, events[n..])
    ensures forall i :: 0 <= i < |events[n..]| ==> events[n..][i].at > cut
  {
    forall i | 0 <= i < dropped + n
      ensures granted[i].at <= cut
    {
      if i >= dropped { assert granted[i] == events[i - dropped]; }
    }
    forall i | n <= i < |events|
      ensures events[i].at > cut
    {
      assert events[i] == granted[dropped + i] && events[n] == granted[dropped + n];
    }
  }
}
