/** `concurrent(tasks, options)`: the whole call. The asynchrony is an
    explicit input, `order`, the sequence of task indices in the order in
    which their settlements reach the subscriber; a run that has not
    observed every task yet is a proper prefix of a full order. */
module Concurrent {
  import opened Wrappers
  import opened JsValues
  import opened ConcurrentOptions
  import opened Outcomes
  import opened Reorder
  import opened AdmissionWindow

  /** Every task has been observed, so the stream completes. */
  predicate Complete(order: seq<nat>, n: nat) {
    forall i :: 0 <= i < n ==> i in order
  }

  /** The indices observed so far. */
  function Seen(order: seq<nat>): set<nat> {
    set i | i in order
  }

  /** What the tasks emit to the subscriber, in arrival order. */
  function Emissions(tasks: seq<TaskResult>, order: seq<nat>, fastFail: bool): (es: seq<Emission>)
    requires forall p :: 0 <= p < |order| ==> order[p] < |tasks|
    ensures |es| == |order|
    ensures forall p :: 0 <= p < |order| ==> es[p] == Tag(tasks[order[p]], order[p], fastFail)
  {
    seq(|order|, p requires 0 <= p < |order| => Tag(tasks[order[p]], order[p], fastFail))
  }

  /** The subscriber's bookkeeping and the error it has been handed, if any. */
  datatype Observed = Observed(buffer: Buffer, error: Option<Value>)

  /** One notification. After an error the subscription is closed and
      nothing more reaches the handlers. */
  function Step(o: Observed, e: Emission, preserveOrder: bool): Observed {
    if o.error.Some? then o
    else match e
      case Next(r) => Observed(Deliver(o.buffer, r, preserveOrder), None)
      case Error(err) => Observed(o.buffer, Some(err))
  }

  /** The notifications `es`, one after the other, from a fresh call. */
  function Observe(es: seq<Emission>, preserveOrder: bool): Observed
    decreases |es|
  {
    if es == [] then Observed(Empty, None)
    else Step(Observe(es[..|es| - 1], preserveOrder), es[|es| - 1], preserveOrder)
  }

  /** The state of the returned promise once the settlements in `order`
      have been observed: rejected with the error the stream failed with;
      otherwise resolved with the projected results once every task has
      been observed; otherwise still pending. */
  function Run(tasks: seq<TaskResult>, order: seq<nat>, options: Option<Options>): PromiseState
    requires DistinctIndices(order, |tasks|)
  {
    var config := Resolve(options);
    var o := Observe(Emissions(tasks, order, config.fastFail), config.preserveOrder);
    if o.error.Some? then Failed(o.error.value)
    else if Complete(order, |tasks|) then Resolved(ProjectAll(o.buffer.results))
    else Pending
  }

  /** `concurrent`, driven by the arrival order: a fresh executor receives
      each tagged settlement through its `next` or `error` handler, and
      `complete` once every task has been observed. Settlements arriving
      after an error are dropped. The schedule is one the admission window
      of `mergeMap` lets through. */
  method Concurrent(tasks: seq<TaskResult>, order: seq<nat>, options: Option<Options>)
    returns (promise: PromiseState)
    requires AdmissionWindow.WithinWindow(order, |tasks|,
                                          AdmissionWindow.LimitOf(Resolve(options).maxConcurrent))
    ensures promise == Run(tasks, order, options)
  {
    var config := Resolve(options);
    var executor := new Executor(config.preserveOrder);
    var stopped := false;
    for p := 0 to |order|
      invariant executor.preserveOrder == config.preserveOrder
      invariant stopped <==> executor.promise.Failed?
      invariant !stopped ==> executor.promise.Pending?
      invariant Observe(Emissions(tasks, order[..p], config.fastFail), config.preserveOrder)
                == Observed(executor.State(), if stopped then Some(executor.promise.reason) else None)
    {
      ghost var es := Emissions(tasks, order[..p + 1], config.fastFail);
      assert es[..p] == Emissions(tasks, order[..p], config.fastFail);
      if !stopped {
        var i := order[p];
        match Tag(tasks[i], i, config.fastFail)
        case Next(r) =>
          executor.OnNext(r);
        case Error(e) =>
          executor.OnError(e);
          stopped := true;
      }
    }
    assert order[..|order|] == order;
    if !stopped && Complete(order, |tasks|) {
      executor.OnComplete();
    }
    promise := executor.promise;
  }

  /** `p` is the first arrival whose task rejected. */
  ghost predicate FirstThrow(tasks: seq<TaskResult>, order: seq<nat>, p: int)
    requires DistinctIndices(order, |tasks|)
  {
    && 0 <= p < |order|
    && tasks[order[p]].Throws?
    && forall q :: 0 <= q < p ==> tasks[order[q]].Fulfills?
  }

  /** Some observed task rejected. */
  ghost predicate SomeThrow(tasks: seq<TaskResult>, order: seq<nat>)
    requires DistinctIndices(order, |tasks|)
  {
    exists p :: 0 <= p < |order| && tasks[order[p]].Throws?
  }

  lemma {:induction false} ObserveLast(tasks: seq<TaskResult>, order: seq<nat>, fastFail: bool, preserveOrder: bool)
    requires DistinctIndices(order, |tasks|) && order != []
    ensures DistinctIndices(order[..|order| - 1], |tasks|)
    ensures Observe(Emissions(tasks, order, fastFail), preserveOrder)
            == Step(Observe(Emissions(tasks, order[..|order| - 1], fastFail), preserveOrder),
                    Tag(tasks[order[|order| - 1]], order[|order| - 1], fastFail), preserveOrder)
  {
    var es := Emissions(tasks, order, fastFail);
    assert es[..|es| - 1] == Emissions(tasks, order[..|order| - 1], fastFail);
  }

  /** The error a step leaves behind and the bookkeeping it changes. */
  lemma StepEffect(o: Observed, e: Emission, preserveOrder: bool)
    ensures Step(o, e, preserveOrder).error ==
              if o.error.Some? then o.error else if e.Error? then Some(e.error) else None
    ensures o.error.Some? || e.Error? ==> Step(o, e, preserveOrder).buffer == o.buffer
  {
  }

  /** The stream fails exactly when fast-fail is on and an observed task
      rejected. */
  lemma {:induction false} ObserveFails(tasks: seq<TaskResult>, order: seq<nat>, fastFail: bool, preserveOrder: bool)
    requires DistinctIndices(order, |tasks|)
    ensures Observe(Emissions(tasks, order, fastFail), preserveOrder).error.Some?
            <==> fastFail && SomeThrow(tasks, order)
    decreases |order|
  {
    if order != [] {
      var m := |order| - 1;
      var prefix := order[..m];
      var i := order[m];
      ObserveLast(tasks, order, fastFail, preserveOrder);
      ObserveFails(tasks, prefix, fastFail, preserveOrder);
      var before := Observe(Emissions(tasks, prefix, fastFail), preserveOrder);
      StepEffect(before, Tag(tasks[i], i, fastFail), preserveOrder);
      assert SomeThrow(tasks, order) <==> SomeThrow(tasks, prefix) || tasks[i].Throws? by {
        if SomeThrow(tasks, order) {
          var p :| 0 <= p < |order| && tasks[order[p]].Throws?;
          if p < m { assert tasks[prefix[p]].Throws?; }
        }
        if SomeThrow(tasks, prefix) {
          var p :| 0 <= p < |prefix| && tasks[prefix[p]].Throws?;
          assert tasks[order[p]].Throws?;
        }
      }
    }
  }

  /** Fast-fail: the error the stream fails with is that of the first
      rejection in arrival order (not the lowest index), and the
      bookkeeping is left as it was before that rejection: nothing
      observed later is recorded. */
  lemma {:induction false} ObserveFirstFailure(tasks: seq<TaskResult>, order: seq<nat>, fastFail: bool, preserveOrder: bool)
    requires DistinctIndices(order, |tasks|)
    ensures var o := Observe(Emissions(tasks, order, fastFail), preserveOrder);
            o.error.Some? ==>
              exists p :: && FirstThrow(tasks, order, p)
                          && o.error.value == tasks[order[p]].error
                          && o.buffer == Observe(Emissions(tasks, order[..p], fastFail), preserveOrder).buffer
    decreases |order|
  {
    if order != [] {
      var m := |order| - 1;
      var prefix := order[..m];
      var i := order[m];
      var e := Tag(tasks[i], i, fastFail);
      ObserveLast(tasks, order, fastFail, preserveOrder);
      var before := Observe(Emissions(tasks, prefix, fastFail), preserveOrder);
      var o := Observe(Emissions(tasks, order, fastFail), preserveOrder);
      assert o == Step(before, e, preserveOrder);
      StepEffect(before, e, preserveOrder);
      if before.error.Some? {
        assert o == before;
        ObserveFirstFailure(tasks, prefix, fastFail, preserveOrder);
        var p :| && FirstThrow(tasks, prefix, p)
                 && before.error.value == tasks[prefix[p]].error
                 && before.buffer == Observe(Emissions(tasks, prefix[..p], fastFail), preserveOrder).buffer;
        FirstThrowExtends(tasks, order, p);
        assert prefix[..p] == order[..p];
      } else if e.Error? {
        ObserveFails(tasks, prefix, fastFail, preserveOrder);
        FirstThrowLast(tasks, order);
        assert prefix == order[..m];
      }
    }
  }

  lemma FirstThrowExtends(tasks: seq<TaskResult>, order: seq<nat>, p: int)
    requires DistinctIndices(order, |tasks|) && order != []
    requires DistinctIndices(order[..|order| - 1], |tasks|)
    requires FirstThrow(tasks, order[..|order| - 1], p)
    ensures FirstThrow(tasks, order, p)
  {
    var prefix := order[..|order| - 1];
    assert forall q :: 0 <= q <= p ==> prefix[q] == order[q];
  }

  lemma FirstThrowLast(tasks: seq<TaskResult>, order: seq<nat>)
    requires DistinctIndices(order, |tasks|) && order != []
    requires DistinctIndices(order[..|order| - 1], |tasks|)
    requires !SomeThrow(tasks, order[..|order| - 1])
    requires tasks[order[|order| - 1]].Throws?
    ensures FirstThrow(tasks, order, |order| - 1)
  {
    var prefix := order[..|order| - 1];
    forall q | 0 <= q < |order| - 1 ensures tasks[order[q]].Fulfills? {
      assert order[q] == prefix[q];
    }
  }

  /** The last arrival is of an index not seen before. */
  lemma SeenLast(order: seq<nat>, n: nat)
    requires DistinctIndices(order, n) && order != []
    ensures Seen(order) == Seen(order[..|order| - 1]) + {order[|order| - 1]}
    ensures order[|order| - 1] !in Seen(order[..|order| - 1])
  {
    var m := |order| - 1;
    assert order == order[..m] + [order[m]];
  }

  lemma {:induction false} ObserveAccounts(tasks: seq<TaskResult>, order: seq<nat>, fastFail: bool)
    requires DistinctIndices(order, |tasks|)
    ensures var o := Observe(Emissions(tasks, order, fastFail), true);
            o.error.None? ==> Accounts(o.buffer, tasks, Seen(order))
    decreases |order|
  {
    if order == [] {
      EmptyAccounts(tasks);
      assert Seen(order) == {};
    } else {
      var m := |order| - 1;
      var prefix := order[..m];
      var i := order[m];
      var e := Tag(tasks[i], i, fastFail);
      ObserveLast(tasks, order, fastFail, true);
      ObserveAccounts(tasks, prefix, fastFail);
      var before := Observe(Emissions(tasks, prefix, fastFail), true);
      var o := Observe(Emissions(tasks, order, fastFail), true);
      assert o == Step(before, e, true);
      if before.error.None? && e.Next? {
        TagRoundTrip(tasks[i], i, fastFail);
        assert o.buffer == Deliver(before.buffer, Tagged(tasks[i], i), true);
        SeenLast(order, |tasks|);
        DeliverAccounts(before.buffer, tasks, Seen(prefix), i);
      } else {
        StepEffect(before, e, true);
      }
    }
  }

  /** Without `preserveOrder`, while the stream has not failed, the results
      are the records of the observed tasks in arrival order, nothing
      reordered or dropped, and the map and cursor are untouched. */
  lemma {:induction false} ObserveArrival(tasks: seq<TaskResult>, order: seq<nat>, fastFail: bool)
    requires DistinctIndices(order, |tasks|)
    ensures var o := Observe(Emissions(tasks, order, fastFail), false);
            o.error.None? ==>
              && |o.buffer.results| == |order|
              && (forall p :: 0 <= p < |order| ==> o.buffer.results[p] == Tagged(tasks[order[p]], order[p]))
              && o.buffer.indexMap == map[] && o.buffer.currentIndex == 0
    decreases |order|
  {
    if order != [] {
      var m := |order| - 1;
      ObserveLast(tasks, order, fastFail, false);
      ObserveArrival(tasks, order[..m], fastFail);
    }
  }

  /** How the promise settles: it rejects exactly when fast-fail is on and
      an observed task rejected, with the reason of the first rejection
      observed; it resolves exactly when every task has been observed and
      it did not reject; otherwise it is still pending. */
  lemma {:induction false} RunSettles(tasks: seq<TaskResult>, order: seq<nat>, options: Option<Options>)
    requires DistinctIndices(order, |tasks|)
    ensures Run(tasks, order, options).Failed? <==> Resolve(options).fastFail && SomeThrow(tasks, order)
    ensures Run(tasks, order, options).Failed? ==>
              exists p :: FirstThrow(tasks, order, p) && Run(tasks, order, options).reason == tasks[order[p]].error
    ensures Run(tasks, order, options).Resolved? <==>
              Complete(order, |tasks|) && !(Resolve(options).fastFail && SomeThrow(tasks, order))
  {
    var config := Resolve(options);
    ObserveFails(tasks, order, config.fastFail, config.preserveOrder);
    ObserveFirstFailure(tasks, order, config.fastFail, config.preserveOrder);
  }

  /** Order preservation: under `preserveOrder`, a resolved call lists one
      value per task, in input order, whatever order the settlements reach
      the `next` handler in. */
  lemma {:induction false} RunPreservesOrder(tasks: seq<TaskResult>, order: seq<nat>, options: Option<Options>)
    requires DistinctIndices(order, |tasks|) && Resolve(options).preserveOrder
    ensures Run(tasks, order, options).Resolved? ==>
              && |Run(tasks, order, options).values| == |tasks|
              && forall i :: 0 <= i < |tasks| ==> Run(tasks, order, options).values[i] == Reported(tasks[i])
  {
    var config := Resolve(options);
    var o := Observe(Emissions(tasks, order, config.fastFail), true);
    if Run(tasks, order, options).Resolved? {
      ObserveAccounts(tasks, order, config.fastFail);
      assert forall i: nat :: i in Seen(order) <==> i < |tasks|;
      CompleteAccounts(o.buffer, tasks, Seen(order));
      forall i | 0 <= i < |tasks| ensures Run(tasks, order, options).values[i] == Reported(tasks[i]) {
        ProjectTagged(tasks[i], i);
      }
    }
  }

  /** Under `preserveOrder`, once every task has been observed the buffer
      is empty and the cursor has passed every task. */
  lemma {:induction false} CompleteDrainsBuffer(tasks: seq<TaskResult>, order: seq<nat>, fastFail: bool)
    requires DistinctIndices(order, |tasks|) && Complete(order, |tasks|)
    ensures var o := Observe(Emissions(tasks, order, fastFail), true);
            o.error.None? ==> o.buffer.indexMap == map[] && o.buffer.currentIndex == |tasks|
  {
    var o := Observe(Emissions(tasks, order, fastFail), true);
    if o.error.None? {
      ObserveAccounts(tasks, order, fastFail);
      CompleteAccounts(o.buffer, tasks, Seen(order));
    }
  }

  /** Without `preserveOrder`, a resolved call lists the values in the
      order the settlements reach the `next` handler. Under a limit this
      can differ from the order the tasks settle in: a task that settles
      while waiting for a slot is observed only once it is admitted. */
  lemma {:induction false} RunKeepsArrivalOrder(tasks: seq<TaskResult>, order: seq<nat>, options: Option<Options>)
    requires DistinctIndices(order, |tasks|) && !Resolve(options).preserveOrder
    ensures Run(tasks, order, options).Resolved? ==>
              && |Run(tasks, order, options).values| == |order| == |tasks|
              && forall p :: 0 <= p < |order| ==>
                   Run(tasks, order, options).values[p] == Reported(tasks[order[p]])
  {
    var config := Resolve(options);
    if Run(tasks, order, options).Resolved? {
      ObserveArrival(tasks, order, config.fastFail);
      forall p | 0 <= p < |order| ensures Run(tasks, order, options).values[p] == Reported(tasks[order[p]]) {
        ProjectTagged(tasks[order[p]], order[p]);
      }
      CompleteLength(order, |tasks|);
    }
  }

  /** A complete arrival order lists every task once. */
  lemma {:induction false} CompleteLength(order: seq<nat>, n: nat)
    requires DistinctIndices(order, n) && Complete(order, n)
    ensures |order| == n
    decreases n
  {
    if n > 0 {
      assert n - 1 in order;
      var k :| 0 <= k < |order| && order[k] == n - 1;
      var rest := order[..k] + order[k + 1..];
      forall i | 0 <= i < n - 1 ensures i in rest {
        assert i in order;
        var q :| 0 <= q < |order| && order[q] == i;
        if q < k { assert rest[q] == i; } else { assert rest[q - 1] == i; }
      }
      forall p | 0 <= p < |rest| ensures rest[p] < n - 1 {
        if p < k { assert rest[p] == order[p]; } else { assert rest[p] == order[p + 1]; }
      }
      forall p, q | 0 <= p < q < |rest| ensures rest[p] != rest[q] {
        var p' := if p < k then p else p + 1;
        var q' := if q < k then q else q + 1;
        assert rest[p] == order[p'] && rest[q] == order[q'];
      }
      CompleteLength(rest, n - 1);
    }
  }

  /** Without fast-fail no task that returns a promise rejects the call:
      once every task has been observed it resolves with one entry per task,
      a rejected task's reason in its slot. */
  lemma {:induction false} CollectAll(tasks: seq<TaskResult>, order: seq<nat>, options: Option<Options>)
    requires DistinctIndices(order, |tasks|) && !Resolve(options).fastFail
    ensures !Run(tasks, order, options).Failed?
    ensures Complete(order, |tasks|) ==>
              Run(tasks, order, options).Resolved? && |Run(tasks, order, options).values| == |tasks|
  {
    RunSettles(tasks, order, options);
    if Complete(order, |tasks|) {
      if Resolve(options).preserveOrder {
        RunPreservesOrder(tasks, order, options);
      } else {
        RunKeepsArrivalOrder(tasks, order, options);
      }
    }
  }

  /** An empty task list resolves at once with an empty list, whatever the
      options. */
  lemma EmptyTaskList(options: Option<Options>)
    ensures Run([], [], options) == Resolved([])
  {
  }
}
