/** What several modules share. */
module Basics {
  datatype Option<+T> = None | Some(value: T)

  function Concat<T>(parts: seq<seq<T>>): seq<T> {
    if parts == [] then [] else Concat(parts[..|parts| - 1]) + parts[|parts| - 1]
  }

  lemma {:induction false} ConcatPlus<T>(a: seq<seq<T>>, b: seq<seq<T>>)
    ensures Concat(a + b) == Concat(a) + Concat(b)
  {
    if b == [] {
      assert a + b == a;
    } else {
      var front, last := b[..|b| - 1], b[|b| - 1];
      assert (a + b)[..|a + b| - 1] == a + front;
      ConcatPlus(a, front);
      calc {
        Concat(a + b);
        Concat(a + front) + last;
        (Concat(a) + Concat(front)) + last;
        Concat(a) + (Concat(front) + last);
        Concat(a) + Concat(b);
      }
    }
  }

  lemma ConcatOne<T>(p: seq<T>)
    ensures Concat([p]) == p
  {
    assert [p][..0] == [];
  }

  lemma SubsetCard<T>(a: set<T>, b: set<T>)
    requires a <= b
    ensures |a| <= |b|
  {
    assert |b - a| + |a| == |b|;
  }

  /** Different elements of a pool are no more than the pool. */
  lemma {:induction false} NoMoreThan<T>(a: seq<T>, pool: seq<T>)
    requires forall i, j :: 0 <= i < j < |a| ==> a[i] != a[j]
    requires forall i :: 0 <= i < |a| ==> a[i] in pool
    ensures |a| <= |pool|
  {
    if a != [] {
      var n := |a| - 1;
      var p :| 0 <= p < |pool| && pool[p] == a[n];
      var rest := pool[..p] + pool[p + 1..];
      forall i | 0 <= i < n
        ensures a[..n][i] in rest
      {
        assert a[i] in pool;
        var q :| 0 <= q < |pool| && pool[q] == a[i];
        assert rest[if q < p then q else q - 1] == a[i];
      }
      NoMoreThan(a[..n], rest);
    }
  }

  // ---- runs ------------------------------------------------------------------------------

  /** What holds at first and is kept by every step holds throughout. */
  lemma {:induction false} Throughout<W(!new), E(!new)>(step: (W, E, W) -> bool, inv: W -> bool, ws: seq<W>,
                                                        es: seq<E>, i: nat)
    requires |ws| == |es| + 1 && i < |ws| && inv(ws[0])
    requires forall j :: 0 <= j < |es| ==> step(ws[j], es[j], ws[j + 1])
    requires forall w, e, w' :: inv(w) && step(w, e, w') ==> inv(w')
    ensures inv(ws[i])
  {
    if i > 0 {
      Throughout(step, inv, ws, es, i - 1);
      assert step(ws[i - 1], es[i - 1], ws[i]);
    }
  }

  /** A transitive relation that every step from an invariant state respects holds along runs. */
  lemma {:induction false} AlongRun<W(!new), E(!new)>(step: (W, E, W) -> bool, inv: W -> bool, rel: (W, W) -> bool,
                                                      ws: seq<W>, es: seq<E>, i: nat, j: nat)
    requires |ws| == |es| + 1 && i <= j < |ws| && inv(ws[0])
    requires forall k :: 0 <= k < |es| ==> step(ws[k], es[k], ws[k + 1])
    requires forall w, e, w' :: inv(w) && step(w, e, w') ==> inv(w') && rel(w, w')
    requires forall w :: rel(w, w)
    requires forall w, v, u {:trigger rel(w, v), rel(v, u)} :: rel(w, v) && rel(v, u) ==> rel(w, u)
    ensures rel(ws[i], ws[j])
    decreases j
  {
    if i < j {
      AlongRun(step, inv, rel, ws, es, i, j - 1);
      Throughout(step, inv, ws, es, j - 1);
      assert step(ws[j - 1], es[j - 1], ws[j]);
      assert rel(ws[j - 1], ws[j]);
    }
  }

  /** One more step at the end of a run. */
  lemma Extended<W, E>(step: (W, E, W) -> bool, ws: seq<W>, es: seq<E>, e: E, w: W)
    requires |ws| == |es| + 1 && step(ws[|es|], e, w)
    requires forall k :: 0 <= k < |es| ==> step(ws[k], es[k], ws[k + 1])
    ensures var vs, fs := ws + [w], es + [e]; forall k :: 0 <= k < |fs| ==> step(vs[k], fs[k], vs[k + 1])
  {
    var vs, fs := ws + [w], es + [e];
    forall k | 0 <= k < |fs|
      ensures step(vs[k], fs[k], vs[k + 1])
    {
      if k < |es| { assert step(ws[k], es[k], ws[k + 1]); }
    }
  }
}
