/** The admission window of `mergeMap(project, maxConcurrent)`: the tagged
    tasks reach `mergeMap` in index order; at most `maxConcurrent` of them
    are awaited at a time, the others wait in a queue, and each settlement
    frees a slot that the next waiting index takes at once. Every task was
    already started upstream, when `task()` was called, so the window bounds
    how many settlements are awaited, not how many tasks run. */
module AdmissionWindow {
  import opened Wrappers

  /** The concurrency argument `mergeMap` receives. */
  datatype Limit = Unbounded | AtMost(k: int)

  /** An undefined `maxConcurrent` leaves `mergeMap` at its default, no
      limit; any number given is passed on unchecked. */
  function LimitOf(maxConcurrent: Option<int>): (l: Limit)
    ensures maxConcurrent.None? <==> l.Unbounded?
    ensures maxConcurrent.Some? ==> l.k == maxConcurrent.value
  {
    match maxConcurrent
    case None => Unbounded
    case Some(k) => AtMost(k)
  }

  /** The window over `n` tasks: indices below `next` have been admitted,
      the rest wait in index order; `active` are the admitted indices whose
      settlement has not yet been observed. */
  datatype Window = Window(n: nat, limit: Limit, next: nat, active: set<nat>)

  /** Whether another index may be admitted (`active < concurrent`). */
  predicate HasRoom(w: Window) {
    match w.limit
    case Unbounded => true
    case AtMost(k) => |w.active| < k
  }

  /** No more indices are active than the limit allows. */
  ghost predicate WithinLimit(w: Window) {
    match w.limit
    case Unbounded => true
    case AtMost(k) => |w.active| <= k || w.active == {}
  }

  /** The window invariant: the active indices are admitted ones, their
      number respects the limit, and no slot stays free while an index
      waits. */
  ghost predicate Valid(w: Window) {
    && w.next <= w.n
    && (forall i :: i in w.active ==> i < w.next)
    && WithinLimit(w)
    && (w.next < w.n ==> !HasRoom(w))
  }

  /** Admit waiting indices, lowest first, while there is room. */
  function Fill(w: Window): (f: Window)
    requires w.next <= w.n
    requires forall i :: i in w.active ==> i < w.next
    decreases w.n - w.next
    ensures f.n == w.n && f.limit == w.limit && w.next <= f.next <= f.n
    ensures forall i: nat :: i in f.active <==> i in w.active || w.next <= i < f.next
    ensures |f.active| == |w.active| + (f.next - w.next)
    ensures f.next == f.n || !HasRoom(f)
    ensures WithinLimit(w) ==> WithinLimit(f)
  {
    if w.next < w.n && HasRoom(w) then
      assert w.next !in w.active;
      Fill(w.(next := w.next + 1, active := w.active + {w.next}))
    else
      w
  }

  /** The window once the source has emitted all `n` tagged tasks. */
  function Start(n: nat, limit: Limit): (w: Window)
    ensures Valid(w) && w.n == n && w.limit == limit
    ensures forall i: nat :: i in w.active <==> i < w.next
    ensures |w.active| == w.next
  {
    var empty := Window(n, limit, 0, {});
    var w := Fill(empty);
    assert forall i: nat :: i in w.active <==> i in empty.active || i < w.next;
    w
  }

  /** Observe the settlement of active index `i`: its slot is freed and,
      if an index is waiting, the lowest one takes it. The window stays
      within the limit. */
  function Settle(w: Window, i: nat): (f: Window)
    requires Valid(w) && i in w.active
    ensures Valid(f) && f.n == w.n && f.limit == w.limit
    ensures f.next == if w.next < w.n then w.next + 1 else w.next
    ensures f.active == (w.active - {i}) + (if w.next < w.n then {w.next} else {})
  {
    var freed := w.(active := w.active - {i});
    assert |freed.active| == |w.active| - 1;
    var f := Fill(freed);
    assert f.active == freed.active + (if w.next < w.n then {w.next} else {}) by {
      if w.next < w.n {
        assert w.next !in freed.active;
      } else {
        assert f == freed;
      }
    }
    f
  }

  /** The settlements the window lets through, in this order: each one is
      of an index that is active when it settles. */
  ghost predicate Admits(w: Window, order: seq<nat>)
    requires Valid(w)
    decreases |order|
  {
    order == [] || (order[0] in w.active && Admits(Settle(w, order[0]), order[1..]))
  }

  /** An order of observations over `n` tasks: task indices, each at most once. */
  predicate DistinctIndices(order: seq<nat>, n: nat) {
    && (forall p :: 0 <= p < |order| ==> order[p] < n)
    && (forall p, q :: 0 <= p < q < |order| ==> order[p] != order[q])
  }

  /** The same schedules in closed form: distinct indices below `n`, and
      under a limit `k` the `p`-th settlement (from 0) is of an index below
      `k + p`, since only `p` slots have been freed before it. */
  predicate WithinWindow(order: seq<nat>, n: nat, limit: Limit) {
    && DistinctIndices(order, n)
    && (limit.AtMost? ==> forall p :: 0 <= p < |order| ==> order[p] < limit.k + p)
  }

  /** The window after `p` settlements, of the indices in `settled`, from
      a start with `width` slots. */
  ghost predicate Reached(w: Window, settled: set<nat>, p: nat, width: nat) {
    && Valid(w)
    && w.next == (if width + p < w.n then width + p else w.n)
    && (forall i :: i in settled ==> i < w.next)
    && (forall i: nat :: i in w.active <==> i < w.next && i !in settled)
    && |w.active| + p == w.next
  }

  /** The closed form, for the rest of a schedule after `p` settlements. */
  ghost predicate FitsFrom(order: seq<nat>, n: nat, settled: set<nat>, width: nat, p: nat) {
    && (forall a, b :: 0 <= a < b < |order| ==> order[a] != order[b])
    && (forall q :: 0 <= q < |order| ==> order[q] < n && order[q] !in settled && order[q] < width + p + q)
  }

  lemma {:induction false} SettleReached(w: Window, settled: set<nat>, p: nat, width: nat, i: nat)
    requires Reached(w, settled, p, width) && i in w.active
    ensures Reached(Settle(w, i), settled + {i}, p + 1, width)
  {
    var f := Settle(w, i);
    assert w.next !in w.active;
    if w.next < w.n {
      assert |f.active| == |w.active - {i}| + 1;
    } else {
      assert |f.active| == |w.active - {i}|;
    }
  }

  lemma {:induction false} FitsFromCons(order: seq<nat>, n: nat, settled: set<nat>, width: nat, p: nat)
    requires order != []
    ensures FitsFrom(order, n, settled, width, p) <==>
              && order[0] < n && order[0] !in settled && order[0] < width + p
              && FitsFrom(order[1..], n, settled + {order[0]}, width, p + 1)
  {
    var tail := order[1..];
    if FitsFrom(order, n, settled, width, p) {
      forall q | 0 <= q < |tail|
        ensures tail[q] < n && tail[q] !in settled + {order[0]} && tail[q] < width + (p + 1) + q
      {
        assert tail[q] == order[q + 1];
      }
      forall a, b | 0 <= a < b < |tail| ensures tail[a] != tail[b] {
        assert tail[a] == order[a + 1] && tail[b] == order[b + 1];
      }
    }
    if && order[0] < n && order[0] !in settled && order[0] < width + p
       && FitsFrom(tail, n, settled + {order[0]}, width, p + 1)
    {
      forall q | 0 <= q < |order|
        ensures order[q] < n && order[q] !in settled && order[q] < width + p + q
      {
        if q > 0 { assert order[q] == tail[q - 1]; }
      }
      forall a, b | 0 <= a < b < |order| ensures order[a] != order[b] {
        assert order[b] == tail[b - 1];
        if a > 0 { assert order[a] == tail[a - 1]; }
      }
    }
  }

  lemma {:induction false} AdmitsFrom(w: Window, settled: set<nat>, p: nat, width: nat, order: seq<nat>)
    requires Reached(w, settled, p, width)
    ensures Admits(w, order) <==> FitsFrom(order, w.n, settled, width, p)
    decreases |order|
  {
    if order != [] {
      FitsFromCons(order, w.n, settled, width, p);
      var i := order[0];
      if i in w.active {
        SettleReached(w, settled, p, width, i);
        AdmitsFrom(Settle(w, i), settled + {i}, p + 1, width, order[1..]);
      }
    }
  }

  /** The window lets a schedule through exactly when it is in the closed
      form: under `maxConcurrent = k` the settlement observed `p`-th is of
      one of the first `k + p` tasks. With `k <= 0` no index is ever
      admitted, so nothing is observed. */
  lemma {:induction false} AdmitsIffWithinWindow(n: nat, limit: Limit, order: seq<nat>)
    ensures Admits(Start(n, limit), order) <==> WithinWindow(order, n, limit)
  {
    var w := Start(n, limit);
    if limit.AtMost? && limit.k < 0 {
      assert w.active == {};
      if order != [] {
        assert !WithinWindow(order, n, limit) by { assert order[0] >= limit.k + 0; }
      }
    } else {
      var width: nat := if limit.AtMost? then limit.k else n;
      StartReached(n, limit, width);
      AdmitsFrom(w, {}, 0, width, order);
      FitsFromStart(order, n, limit, width);
    }
  }

  lemma {:induction false} StartReached(n: nat, limit: Limit, width: nat)
    requires limit.AtMost? ==> limit.k == width
    requires limit.Unbounded? ==> width == n
    ensures Reached(Start(n, limit), {}, 0, width)
  {
    var w := Start(n, limit);
    if limit.AtMost? {
      assert WithinLimit(w);
      if w.next < n {
        assert !HasRoom(w);
      }
    }
  }

  lemma {:induction false} FitsFromStart(order: seq<nat>, n: nat, limit: Limit, width: nat)
    requires limit.AtMost? ==> limit.k == width
    requires limit.Unbounded? ==> width == n
    ensures FitsFrom(order, n, {}, width, 0) <==> WithinWindow(order, n, limit)
  {
  }

  /** The schedules the window admits are orders of distinct task indices. */
  lemma {:induction false} AdmittedAreDistinct(n: nat, limit: Limit, order: seq<nat>)
    requires Admits(Start(n, limit), order)
    ensures DistinctIndices(order, n)
  {
    AdmitsIffWithinWindow(n, limit, order);
  }
}
