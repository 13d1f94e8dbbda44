/** What one task turns into on its way to the subscriber: its promise
    settles, the settlement is tagged with the task's index, and once the
    run completes every tagged record is projected to a plain value. */
module Outcomes {
  import opened JsValues

  /** How the promise returned by a task settles. */
  datatype TaskResult = Fulfills(value: Value) | Throws(error: Value)

  /** A tagged record: `{ status: 'fulfilled', value, index }` or
      `{ status: 'rejected', reason, index }`. */
  datatype Record = Fulfilled(value: Value, index: nat) | Rejected(reason: Value, index: nat)

  /** What the inner async function hands to the stream: a record as a
      `next` notification, or the task's error rethrown, which fails the
      stream. */
  datatype Emission = Next(record: Record) | Error(error: Value)

  /** The record a settled task is turned into when it is not rethrown. */
  function Tagged(t: TaskResult, index: nat): (r: Record)
    ensures r.index == index
    ensures r.Fulfilled? <==> t.Fulfills?
    ensures Settlement(r) == t
  {
    match t
    case Fulfills(v) => Fulfilled(v, index)
    case Throws(e) => Rejected(e, index)
  }

  /** The task result a record was made from: the inverse of tagging. */
  function Settlement(r: Record): TaskResult {
    match r
    case Fulfilled(v, _) => Fulfills(v)
    case Rejected(e, _) => Throws(e)
  }

  /** The inner async function: await the task; on fulfilment emit a
      fulfilled record; on failure rethrow under fast-fail, otherwise emit
      a rejected record. */
  function Tag(t: TaskResult, index: nat, fastFail: bool): (e: Emission)
    ensures e.Error? <==> fastFail && t.Throws?
    ensures e.Error? ==> e.error == t.error
    ensures e.Next? ==> e.record.index == index && Settlement(e.record) == t
  {
    match t
    case Fulfills(_) => Next(Tagged(t, index))
    case Throws(error) => if fastFail then Error(error) else Next(Tagged(t, index))
  }

  /** Tagging loses nothing: the task result can be read back from the
      record, and the record is determined by the result and the index. */
  lemma {:induction false} TagRoundTrip(t: TaskResult, index: nat, fastFail: bool)
    ensures Tag(t, index, fastFail).Next? ==>
              Tag(t, index, fastFail).record == Tagged(t, index)
              && Settlement(Tag(t, index, fastFail).record) == t
    ensures forall r: Record :: Settlement(r) == t && r.index == index ==> r == Tagged(t, index)
  {
  }

  /** The `undefined` read from a field the record does not have. */
  function ValueField(r: Record): Value {
    if r.Fulfilled? then r.value else Undefined
  }

  function ReasonField(r: Record): Value {
    if r.Rejected? then r.reason else Undefined
  }

  /** The final projection `r.value || r.reason`. */
  function Project(r: Record): (v: Value)
    ensures r.Rejected? ==> v == r.reason
    ensures r.Fulfilled? && Truthy(r.value) ==> v == r.value
    ensures r.Fulfilled? && !Truthy(r.value) ==> v == Undefined
  {
    Or(ValueField(r), ReasonField(r))
  }

  /** `results.map(r => r.value || r.reason)`. */
  function ProjectAll(rs: seq<Record>): (vs: seq<Value>)
    ensures |vs| == |rs|
    ensures forall i :: 0 <= i < |rs| ==> vs[i] == Project(rs[i])
  {
    seq(|rs|, i requires 0 <= i < |rs| => Project(rs[i]))
  }

  /** What the caller finally sees for a task that was collected: its value
      if truthy, `undefined` for a falsy value, its rejection reason as is. */
  function Reported(t: TaskResult): Value {
    match t
    case Fulfills(v) => if Truthy(v) then v else Undefined
    case Throws(e) => e
  }

  /** Projecting a tagged record yields what is reported for the task,
      whatever its index: a falsy fulfilled value (0, '', false, null,
      undefined, NaN) comes out as `undefined`, a rejection reason unchanged. */
  lemma {:induction false} ProjectTagged(t: TaskResult, index: nat)
    ensures Project(Tagged(t, index)) == Reported(t)
    ensures t.Fulfills? && !Truthy(t.value) ==> Project(Tagged(t, index)) == Undefined
    ensures t.Throws? ==> Project(Tagged(t, index)) == t.error
  {
  }

  /** The falsy values named in the projection's contract are all lost. */
  lemma FalsyValuesReportUndefined(index: nat)
    ensures Project(Fulfilled(Num(0), index)) == Undefined
    ensures Project(Fulfilled(Str(""), index)) == Undefined
    ensures Project(Fulfilled(Bool(false), index)) == Undefined
    ensures Project(Fulfilled(Null, index)) == Undefined
    ensures Project(Fulfilled(Num(1), index)) == Num(1)
  {
  }
}
