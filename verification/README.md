# Bounded-concurrency task executor (`concurrent`)

This project models `concurrent(tasks, options)` from `src/promise/concurrent.ts`.
The function runs a list of promise-returning tasks. It awaits at most
`maxConcurrent` of their settlements at a time, through RxJS's `mergeMap`. It
returns a promise for their values, either in input order (`preserveOrder`,
default true) or in the order the settlements reach the `next` handler.
Under a limit that order can differ from the order the tasks settle in: a
task that settles while waiting for a slot is observed only once it is
admitted. Under fast-fail (`fastFail`, default
true) the promise rejects with the first failure observed. Otherwise each
failure's reason fills that task's slot.

The model follows the pipeline stage by stage:

- **Options** (`ConcurrentOptions`): the destructuring defaults of line 32.
- **Tagging** (`Outcomes`): the inner async function of lines 41-51 turns each
  settled task into a `fulfilled`/`rejected` record carrying its index, or
  rethrows under fast-fail. The final projection `r.value || r.reason`
  (line 71) uses JavaScript truthiness (`JsValues`).
- **Reorder buffer** (`Reorder`): the `next` handler of lines 55-67 as the
  class `Executor`. It has the fields `results`, `indexMap` and
  `currentIndex`, and a `promise` field for the state of the returned
  promise. `OnNext` keeps the `while` loop. It is proved equal to the pure
  function `Deliver`, whose loop part `Drain` is specified by what it moves
  and where it stops. `OnError` and `OnComplete` are the `error` and
  `complete` handlers. A promise settles only once.
- **Admission window** (`AdmissionWindow`): `mergeMap`'s concurrency argument,
  as a state machine. Indices wait in index order. At most `maxConcurrent`
  are awaited at a time. A freed slot goes at once to the lowest waiting
  index. Every task is started at line 39, before `mergeMap` sees it, so the
  window bounds how many settlements are *awaited*, not how many tasks *run*.
  The model makes no claim about running tasks.
- **Whole call** (`Concurrent`): the asynchrony is an explicit input. `order`
  is the sequence of task indices in the order their settlements reach the
  subscriber. It may be a proper prefix of a full order while the call is in
  progress, or when a task never settles. `Run` is the specification of the
  call. The method `Concurrent` drives a fresh `Executor` through the
  handlers and is proved equal to `Run`. The lemmas about `Run` state
  order preservation, observation order, fast-fail and collect-all.
- **Scenarios** (`Scenarios`): the cases of `test/rxjs/concurrent.test.ts`,
  including the commented-out collect-all case.

Three behaviours of the code worth knowing:

- A non-positive `maxConcurrent` is not rejected as invalid. It reaches
  `mergeMap`, which then awaits nothing, so a non-empty call never settles
  (`Scenarios.NonPositiveLimitNeverSettles`).
- `maxConcurrent` does not bound the number of running tasks (line 39).
- Under collect-all, a rejected task's slot holds the bare rejection reason.
  This is what the projection at line 71 yields.

## Model

| member | source | states |
|---|---|---|
| `ConcurrentOptions.OrEmpty` | src/promise/concurrent.ts:32 | a missing options record reads as one whose three fields are all undefined; a given record is used as is |
| `ConcurrentOptions.Resolve` | src/promise/concurrent.ts:32 | `preserveOrder` and `fastFail` default to true when undefined and keep a given value; `maxConcurrent` is passed through, undefined when omitted |
| `ConcurrentOptions.OmittedIsEmpty` | src/promise/concurrent.ts:32 | omitting the options equals passing `{}`: order preserved, fast-fail on, no limit |
| `ConcurrentOptions.GivenOptionsAreKept` | src/promise/concurrent.ts:32 | options that are all given come out unchanged |
| `JsValues.Or` | src/promise/concurrent.ts:71 | `a \|\| b` is one of its operands; it is truthy iff either operand is; a truthy left operand wins |
| `Outcomes.Tagged` | src/promise/concurrent.ts:41-51 | the record carries the task's index; it is fulfilled iff the task fulfilled; the task result can be read back from it |
| `Outcomes.Tag` | src/promise/concurrent.ts:41-51 | the stream fails iff fast-fail is on and the task rejected, with the task's own error; otherwise the emitted record has the task's index and its result |
| `Outcomes.TagRoundTrip` | src/promise/concurrent.ts:41-51 | tagging loses nothing: an emitted record is the tagged record of the task, and the result and index determine the record |
| `Outcomes.Project` | src/promise/concurrent.ts:71 | a rejected record yields its reason; a fulfilled one yields its value when truthy and `undefined` when falsy |
| `Outcomes.ProjectAll` | src/promise/concurrent.ts:71 | the projection maps the results one for one, keeping length and order |
| `Outcomes.ProjectTagged` | src/promise/concurrent.ts:71 | a task's reported value is its value if truthy, `undefined` if falsy, its reason if it rejected |
| `Outcomes.FalsyValuesReportUndefined` | src/promise/concurrent.ts:71 | fulfilled `0`, `''`, `false` and `null` are reported as `undefined`; `1` is kept |
| `Reorder.Drain` | src/promise/concurrent.ts:58-63 | the loop stops at the first index at or above the cursor that is missing from the map. It appends the records of the skipped indices in index order and removes exactly those keys |
| `Reorder.EmptyInOrder` | src/promise/concurrent.ts:34-36 | the fresh bookkeeping satisfies the order invariant |
| `Reorder.DeliverKeepsOrder` | src/promise/concurrent.ts:56-63 | for an index not delivered before, `next` keeps `\|results\| == currentIndex` and `results[i].index == i`; every buffered key stays strictly above the cursor, which is never a key |
| `Reorder.EmptyAccounts` | src/promise/concurrent.ts:34-36 | the fresh bookkeeping accounts for no task |
| `Reorder.DeliverAccounts` | src/promise/concurrent.ts:56-63 | delivering a new task's record keeps the invariant: a task has been delivered iff it is behind the cursor or buffered under its index, with its own record |
| `Reorder.CompleteAccounts` | src/promise/concurrent.ts:58-63 | once all indices `0..n-1` are delivered, the map is empty, the cursor is `n`, and the results are every task's record in input order |
| `Reorder.Executor.constructor` | src/promise/concurrent.ts:34-36 | empty results, empty map, cursor 0, pending promise |
| `Reorder.Executor.OnNext` | src/promise/concurrent.ts:55-67 | the new state is `Deliver` of the old state. Under `preserveOrder` the order invariant is kept for an unseen index. Otherwise the record is appended and map and cursor are unchanged. The promise is untouched |
| `Reorder.Executor.OnError` | src/promise/concurrent.ts:69 | a pending promise is rejected with the error; the bookkeeping is unchanged |
| `Reorder.Executor.OnComplete` | src/promise/concurrent.ts:70-72 | a pending promise is resolved with the projected results; the bookkeeping is unchanged |
| `AdmissionWindow.LimitOf` | src/promise/concurrent.ts:52 | an undefined `maxConcurrent` means no limit; any number is passed on unchecked |
| `AdmissionWindow.Fill` | src/promise/concurrent.ts:40-53 | waiting indices are admitted lowest first until no room is left or none waits; the limit is never exceeded |
| `AdmissionWindow.Start` | src/promise/concurrent.ts:38-53 | after the source emits, the first indices are admitted up to the limit, and the window invariant holds |
| `AdmissionWindow.Settle` | src/promise/concurrent.ts:40-53 | a settlement frees its slot, and the lowest waiting index takes the slot at once. The number awaited stays within `maxConcurrent` |
| `AdmissionWindow.AdmitsIffWithinWindow` | src/promise/concurrent.ts:40-53 | the window lets an order through iff the indices are distinct and below `n`, and under limit `k` the `p`-th settlement is of an index below `k + p` |
| `AdmissionWindow.AdmittedAreDistinct` | src/promise/concurrent.ts:40-53 | every order the window lets through observes each task at most once |
| `Concurrent.Concurrent` | src/promise/concurrent.ts:28-75 | driving the executor through `next`/`error`/`complete` along an admissible order yields exactly the promise state `Run` specifies |
| `Concurrent.ObserveFails` | src/promise/concurrent.ts:46-48 | the stream fails iff fast-fail is on and some observed task rejected |
| `Concurrent.ObserveFirstFailure` | src/promise/concurrent.ts:46-69 | the error is that of the first rejection in arrival order, not the lowest index. The bookkeeping is what it was just before that rejection, so later outcomes are not recorded |
| `Concurrent.ObserveAccounts` | src/promise/concurrent.ts:55-64 | under `preserveOrder`, until a failure, each observed task appears once: behind the cursor in index order or buffered under its index |
| `Concurrent.ObserveArrival` | src/promise/concurrent.ts:65-67 | without `preserveOrder`, until a failure, the results are exactly the observed records in arrival order, with nothing reordered or dropped |
| `Concurrent.RunSettles` | src/promise/concurrent.ts:33-73 | the promise rejects iff fast-fail is on and an observed task rejected, with the first observed reason. It resolves iff every task was observed and it did not reject. Otherwise it stays pending |
| `Concurrent.RunPreservesOrder` | src/promise/concurrent.ts:56-71 | under `preserveOrder`, a resolved call has one value per task, the `i`-th being task `i`'s reported value, whatever order the settlements reach `next` in |
| `Concurrent.CompleteDrainsBuffer` | src/promise/concurrent.ts:58-71 | under `preserveOrder`, at completion the map is empty and the cursor equals the number of tasks |
| `Concurrent.RunKeepsArrivalOrder` | src/promise/concurrent.ts:65-71 | without `preserveOrder`, a resolved call lists every task's reported value in the order the settlements reach `next`, which under a limit can differ from the order the tasks settle in |
| `Concurrent.CompleteLength` | src/promise/concurrent.ts:70-71 | an order that observes every task, each once, has exactly one entry per task |
| `Concurrent.CollectAll` | src/promise/concurrent.ts:49 | for tasks that return a promise, without fast-fail the call never rejects. Once every task is observed it resolves with one entry per task |
| `Concurrent.EmptyTaskList` | test/rxjs/concurrent.test.ts:75-78 | an empty task list resolves at once with `[]`, under any options |
| `Scenarios.DefaultKeepsInputOrder` | test/rxjs/concurrent.test.ts:14-40 | with default options and settle order 1, 2, 0 the call resolves with `[1, 2, 3]` |
| `Scenarios.UnorderedFollowsSettlement` | test/rxjs/concurrent.test.ts:31-41 | with `maxConcurrent: 2, preserveOrder: false` the settle order 1, 2, 0 is admissible and the call resolves with `[2, 3, 1]` |
| `Scenarios.ThirdTaskWaitsForASlot` | src/promise/concurrent.ts:40-53 | under a limit of two, task 2 is never the first settlement observed |
| `Scenarios.NonPositiveLimitNeverSettles` | src/promise/concurrent.ts:52 | with `maxConcurrent <= 0` nothing is observed, and a non-empty call stays pending |
| `Scenarios.FastFailRejects` | test/rxjs/concurrent.test.ts:44-65 | the call rejects with the second task's error once it is observed, before the other tasks settle |
| `Scenarios.CollectAllKeepsReason` | test/rxjs/concurrent.test.ts:61-72 | without fast-fail the same tasks resolve with `[1, reason, 3]` |
| `Scenarios.ZeroIsReportedUndefined` | src/promise/concurrent.ts:71 | a task fulfilled with `0` is reported as `undefined` |

## Left out

- Real asynchrony, timers, promise microtasks and RxJS scheduling. The order in which settlements reach the `next` handler is an input (`order`) and timing races are not modelled.
- RxJS's `from`, `map` and `mergeMap` are not part of this model. `mergeMap`'s admission behaviour is modelled from its documented contract as `AdmissionWindow`. RxJS's own teardown is the rule in `Concurrent.Step` that nothing reaches the handlers after an error.
- The eager start of every task at line 39 is not an event of the model. No member bounds the number of running tasks.
- Task bodies: a task is only its settled result (`TaskResult`).
- Numbers are integers plus `NaN`. Fractional numbers, `-0` and `BigInt` values are not modelled, and neither is a fractional or `NaN` `maxConcurrent`.
- Tasks still in flight after a fast-fail keep running, and their results are dropped. Unhandled rejections of such tasks are not modelled.
- Concurrent.CollectAll: covers only tasks that return a promise. A task that throws synchronously when called (inside `map`, line 39) errors the stream, so `reject` at line 69 fires whatever `fastFail` is, and the later tasks are never started; the model has no such task result. A task that rejects while it waits for a slot has no handler yet, so the runtime reports an unhandled rejection; the model does not capture that either.
- The record objects' `status` strings are the constructors of `Outcomes.Record`.
- src/promise/wait.ts (the `waitFor`/`atLeast` timer helpers) is not part of this model.
- The fingerprint collectors, the demo component, the build and lint configuration, and the lodash and RxJS exploration tests are not part of this model.
