/** The executor's own test cases, stated on the model: three tasks taking
    300, 100 and 200 time units settle in the order 1, 2, 0; with a
    limit of two, task 2 is awaited once task 1 has settled and (having
    been started at once) settles before task 0. */
module Scenarios {
  import opened Wrappers
  import opened JsValues
  import opened ConcurrentOptions
  import opened Outcomes
  import opened Reorder
  import opened Concurrent
  import AdmissionWindow

  const Counting: seq<TaskResult> := [Fulfills(Num(1)), Fulfills(Num(2)), Fulfills(Num(3))]
  const SettleOrder: seq<nat> := [1, 2, 0]

  /** With the default options the values come back in input order. */
  lemma DefaultKeepsInputOrder()
    ensures Run(Counting, SettleOrder, None) == Resolved([Num(1), Num(2), Num(3)])
  {
    assert Complete(SettleOrder, 3) by {
      assert SettleOrder[2] == 0 && SettleOrder[0] == 1 && SettleOrder[1] == 2;
    }
    RunSettles(Counting, SettleOrder, None);
    RunPreservesOrder(Counting, SettleOrder, None);
  }

  /** With `maxConcurrent: 2, preserveOrder: false` the settle order is one
      the window lets through, and the values come back in that order. */
  lemma UnorderedFollowsSettlement()
    ensures AdmissionWindow.WithinWindow(SettleOrder, 3, AdmissionWindow.AtMost(2))
    ensures Run(Counting, SettleOrder, Some(Options(Some(2), Some(false), None)))
            == Resolved([Num(2), Num(3), Num(1)])
  {
    var options := Some(Options(Some(2), Some(false), None));
    assert Complete(SettleOrder, 3) by {
      assert SettleOrder[2] == 0 && SettleOrder[0] == 1 && SettleOrder[1] == 2;
    }
    RunSettles(Counting, SettleOrder, options);
    RunKeepsArrivalOrder(Counting, SettleOrder, options);
    var values := Run(Counting, SettleOrder, options).values;
    assert values[0] == Num(2) && values[1] == Num(3) && values[2] == Num(1);
  }

  /** Under a limit of two, the third task cannot be the first one observed. */
  lemma {:induction false} ThirdTaskWaitsForASlot(order: seq<nat>)
    requires order != [] && order[0] == 2
    ensures !AdmissionWindow.Admits(AdmissionWindow.Start(3, AdmissionWindow.AtMost(2)), order)
  {
    AdmissionWindow.AdmitsIffWithinWindow(3, AdmissionWindow.AtMost(2), order);
  }

  /** A limit that is not positive admits nothing: a non-empty task list
      never settles. */
  lemma {:induction false} NonPositiveLimitNeverSettles(tasks: seq<TaskResult>, k: int, order: seq<nat>)
    requires tasks != [] && k <= 0
    requires AdmissionWindow.Admits(AdmissionWindow.Start(|tasks|, AdmissionWindow.AtMost(k)), order)
    ensures order == []
    ensures Run(tasks, order, Some(Options(Some(k), None, None))) == Pending
  {
    AdmissionWindow.AdmitsIffWithinWindow(|tasks|, AdmissionWindow.AtMost(k), order);
    assert !Complete(order, |tasks|) by { assert 0 !in order; }
  }

  const SecondFails: seq<TaskResult> := [Fulfills(Num(1)), Throws(Obj(0)), Fulfills(Num(3))]

  /** Tasks taking 100, 50 (and failing) and 150 units: the call rejects
      with the failure as soon as it is observed, before the others settle. */
  lemma FastFailRejects()
    ensures Run(SecondFails, [1], None) == Failed(Obj(0))
    ensures Run(SecondFails, [1, 0, 2], None) == Failed(Obj(0))
  {
    assert SecondFails[[1][0]].Throws?;
    RunSettles(SecondFails, [1], None);
    assert SecondFails[[1, 0, 2][0]].Throws?;
    RunSettles(SecondFails, [1, 0, 2], None);
  }

  /** The same tasks without fast-fail: the reason sits in the second slot. */
  lemma CollectAllKeepsReason()
    ensures Run(SecondFails, [1, 0, 2], Some(Options(None, None, Some(false))))
            == Resolved([Num(1), Obj(0), Num(3)])
  {
    var options := Some(Options(None, None, Some(false)));
    var order := [1, 0, 2];
    assert Complete(order, 3) by {
      assert order[1] == 0 && order[0] == 1 && order[2] == 2;
    }
    assert AdmissionWindow.DistinctIndices(order, 3);
    CollectAll(SecondFails, order, options);
    RunPreservesOrder(SecondFails, order, options);
    var values := Run(SecondFails, order, options).values;
    assert values[0] == Num(1) && values[1] == Obj(0) && values[2] == Num(3);
  }

  /** A task fulfilled with 0 is reported as `undefined`. */
  lemma ZeroIsReportedUndefined()
    ensures Run([Fulfills(Num(0))], [0], None) == Resolved([Undefined])
  {
    RunSettles([Fulfills(Num(0))], [0], None);
    RunPreservesOrder([Fulfills(Num(0))], [0], None);
  }
}
