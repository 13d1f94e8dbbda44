/** The subscriber side of `concurrent`: the reorder buffer fed by the
    `next` handler, and the promise settled by the `error` and `complete`
    handlers. */
module Reorder {
  import opened JsValues
  import opened Outcomes

  /** The bookkeeping of one call: the collected records, the records that
      arrived ahead of their turn (keyed by index), and the index whose
      record is due next. */
  datatype Buffer = Buffer(results: seq<Record>, indexMap: map<nat, Record>, currentIndex: nat)

  const Empty := Buffer([], map[], 0)

  /** The map without the keys `lo .. hi-1`. */
  function Without(m: map<nat, Record>, lo: nat, hi: nat): (r: map<nat, Record>)
    ensures forall k :: k in r <==> k in m && !(lo <= k < hi)
    ensures forall k :: k in r ==> r[k] == m[k]
  {
    map k | k in m && !(lo <= k < hi) :: m[k]
  }

  /** The `while` loop of the `next` handler: move the record due next from
      the map to the results as long as the map has one. It stops at the
      first index missing from the map; everything below that index and at
      or above the cursor has been moved, in index order. */
  function Drain(b: Buffer): (d: Buffer)
    decreases b.indexMap.Keys
    ensures b.currentIndex <= d.currentIndex
    ensures forall i :: b.currentIndex <= i < d.currentIndex ==> i in b.indexMap
    ensures d.currentIndex !in b.indexMap
    ensures |d.results| == |b.results| + (d.currentIndex - b.currentIndex)
    ensures d.results[..|b.results|] == b.results
    ensures forall j :: |b.results| <= j < |d.results| ==>
              d.results[j] == b.indexMap[j - |b.results| + b.currentIndex]
    ensures d.indexMap == Without(b.indexMap, b.currentIndex, d.currentIndex)
  {
    if b.currentIndex in b.indexMap then
      var cur := b.currentIndex;
      var next := Buffer(b.results + [b.indexMap[cur]], b.indexMap - {cur}, cur + 1);
      assert next.indexMap.Keys < b.indexMap.Keys;
      var d := Drain(next);
      assert d.indexMap == Without(b.indexMap, cur, d.currentIndex);
      assert d.results[..|b.results|] == b.results by {
        assert d.results[..|next.results|][..|b.results|] == b.results;
      }
      d
    else
      assert b.indexMap == Without(b.indexMap, b.currentIndex, b.currentIndex);
      b
  }

  /** One turn of the loop leaves what the loop ends with unchanged. */
  lemma DrainStep(b: Buffer)
    requires b.currentIndex in b.indexMap
    ensures Drain(b) == Drain(Buffer(b.results + [b.indexMap[b.currentIndex]],
                                     b.indexMap - {b.currentIndex}, b.currentIndex + 1))
  {
  }

  /** One call of the `next` handler. With `preserveOrder` the record is
      stored under its index and the buffer drained; otherwise it is
      appended to the results as it arrives. */
  function Deliver(b: Buffer, r: Record, preserveOrder: bool): Buffer {
    if preserveOrder then Drain(b.(indexMap := b.indexMap[r.index := r]))
    else b.(results := b.results + [r])
  }

  /** The order invariant of the buffer under `preserveOrder`: the results
      are exactly the records of indices `0 .. currentIndex-1`, in that
      order, and every buffered record sits under its own index, strictly
      above the cursor (so the cursor itself is never a key). */
  ghost predicate InOrder(b: Buffer) {
    && |b.results| == b.currentIndex
    && (forall i :: 0 <= i < |b.results| ==> b.results[i].index == i)
    && (forall k :: k in b.indexMap ==> b.currentIndex < k && b.indexMap[k].index == k)
  }

  /** A record whose index has not been delivered before: it is neither
      behind the cursor nor already buffered. */
  predicate Unseen(b: Buffer, index: nat) {
    b.currentIndex <= index && index !in b.indexMap
  }

  lemma EmptyInOrder()
    ensures InOrder(Empty)
  {
  }

  /** The `next` handler keeps the order invariant when each index is
      delivered at most once. */
  lemma {:induction false} DeliverKeepsOrder(b: Buffer, r: Record)
    requires InOrder(b) && Unseen(b, r.index)
    ensures InOrder(Deliver(b, r, true))
    ensures Deliver(b, r, true).currentIndex !in Deliver(b, r, true).indexMap
  {
    var b1 := b.(indexMap := b.indexMap[r.index := r]);
    var d := Drain(b1);
    forall i | 0 <= i < |d.results| ensures d.results[i].index == i {
      if i < |b.results| {
        assert d.results[i] == d.results[..|b.results|][i];
      }
    }
  }

  /** Under `preserveOrder`, the bookkeeping after a set `seen` of indices
      has been delivered, each with the record `Tagged(tasks[i], i)`: the
      order invariant holds, and an index has been delivered exactly when
      it is behind the cursor or buffered, with its own record. */
  ghost predicate Accounts(b: Buffer, tasks: seq<TaskResult>, seen: set<nat>) {
    && InOrder(b)
    && b.currentIndex <= |tasks|
    && (forall i: nat :: i in seen <==> i < b.currentIndex || i in b.indexMap)
    && (forall i :: 0 <= i < |b.results| ==> b.results[i] == Tagged(tasks[i], i))
    && (forall k :: k in b.indexMap ==> k < |tasks| && b.indexMap[k] == Tagged(tasks[k], k))
  }

  lemma EmptyAccounts(tasks: seq<TaskResult>)
    ensures Accounts(Empty, tasks, {})
  {
  }

  /** Delivering the record of a task not seen before keeps the account. */
  lemma {:induction false} DeliverAccounts(b: Buffer, tasks: seq<TaskResult>, seen: set<nat>, i: nat)
    requires Accounts(b, tasks, seen)
    requires i < |tasks| && i !in seen
    ensures Accounts(Deliver(b, Tagged(tasks[i], i), true), tasks, seen + {i})
  {
    var r := Tagged(tasks[i], i);
    assert Unseen(b, i);
    DeliverKeepsOrder(b, r);
    var b1 := b.(indexMap := b.indexMap[i := r]);
    var d := Drain(b1);
    assert d == Deliver(b, r, true);
    if b.currentIndex < d.currentIndex {
      assert d.currentIndex - 1 in b1.indexMap;
    }
    forall j | 0 <= j < |d.results| ensures d.results[j] == Tagged(tasks[j], j) {
      if j < |b.results| {
        assert d.results[j] == d.results[..|b.results|][j];
      }
    }
  }

  /** Once every index below `n` has been delivered, and nothing else, the
      buffer is empty and the results are the records of all tasks in
      input order. */
  lemma {:induction false} CompleteAccounts(b: Buffer, tasks: seq<TaskResult>, seen: set<nat>)
    requires Accounts(b, tasks, seen)
    requires forall i: nat :: i in seen <==> i < |tasks|
    ensures b.indexMap == map[]
    ensures b.currentIndex == |tasks| && |b.results| == |tasks|
    ensures forall i :: 0 <= i < |tasks| ==> b.results[i] == Tagged(tasks[i], i)
  {
    assert b.currentIndex !in b.indexMap;
    if b.currentIndex < |tasks| {
      assert false;
    }
    if k :| k in b.indexMap {
      assert false;
    }
  }

  /** The state of the promise `concurrent` returns. */
  datatype PromiseState = Pending | Resolved(values: seq<Value>) | Failed(reason: Value)

  /** The state of one call of `concurrent`: the three variables its
      handlers share, the `preserveOrder` option they read, and the
      promise they settle. */
  class Executor {
    const preserveOrder: bool
    var results: seq<Record>
    var indexMap: map<nat, Record>
    var currentIndex: nat
    var promise: PromiseState

    function State(): Buffer
      reads this
    {
      Buffer(results, indexMap, currentIndex)
    }

    constructor (preserveOrder: bool)
      ensures this.preserveOrder == preserveOrder
      ensures State() == Empty && InOrder(State())
      ensures promise == Pending
    {
      this.preserveOrder := preserveOrder;
      results := [];
      indexMap := map[];
      currentIndex := 0;
      promise := Pending;
    }

    /** The `next` handler. */
    method OnNext(r: Record)
      modifies this
      ensures State() == Deliver(old(State()), r, preserveOrder)
      ensures preserveOrder && InOrder(old(State())) && Unseen(old(State()), r.index) ==>
                InOrder(State()) && currentIndex !in indexMap
      ensures !preserveOrder ==> results == old(results) + [r] && indexMap == old(indexMap)
                                  && currentIndex == old(currentIndex)
      ensures promise == old(promise)
    {
      if preserveOrder {
        indexMap := indexMap[r.index := r];
        ghost var start := State();
        while currentIndex in indexMap
          invariant Drain(State()) == Drain(start)
          invariant promise == old(promise)
          decreases indexMap.Keys
        {
          ghost var before := State();
          var current := indexMap[currentIndex];
          results := results + [current];
          indexMap := indexMap - {currentIndex};
          currentIndex := currentIndex + 1;
          DrainStep(before);
        }
        if InOrder(old(State())) && Unseen(old(State()), r.index) {
          DeliverKeepsOrder(old(State()), r);
        }
      } else {
        results := results + [r];
      }
    }

    /** The `error` handler: reject the promise with the error, unless it
        has settled already. */
    method OnError(error: Value)
      modifies this
      ensures State() == old(State())
      ensures promise == if old(promise).Pending? then Failed(error) else old(promise)
    {
      if promise.Pending? {
        promise := Failed(error);
      }
    }

    /** The `complete` handler: resolve the promise with the projected
        results, unless it has settled already. */
    method OnComplete()
      modifies this
      ensures State() == old(State())
      ensures promise == if old(promise).Pending? then Resolved(ProjectAll(results)) else old(promise)
    {
      if promise.Pending? {
        promise := Resolved(ProjectAll(results));
      }
    }
  }
}
