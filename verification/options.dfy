/** The options record of `concurrent` and the defaults applied to it. */
module ConcurrentOptions {
  import opened Wrappers

  /** `ConcurrentOptions`: every field may be left undefined. */
  datatype Options = Options(
    maxConcurrent: Option<int>,
    preserveOrder: Option<bool>,
    fastFail: Option<bool>)

  /** The options after defaulting. `maxConcurrent` stays optional: an
      undefined limit is handed on to the window, which reads it as no limit. */
  datatype Config = Config(maxConcurrent: Option<int>, preserveOrder: bool, fastFail: bool)

  /** The record `options || {}` is destructured from: a missing record
      reads as one with every field undefined. */
  function OrEmpty(options: Option<Options>): (o: Options)
    ensures options.Some? ==> o == options.value
    ensures options.None? ==> o.maxConcurrent.None? && o.preserveOrder.None? && o.fastFail.None?
  {
    options.GetOr(Options(None, None, None))
  }

  /** Destructuring with `preserveOrder = true` and `fastFail = true`. */
  function Resolve(options: Option<Options>): (c: Config)
    ensures options.None? ==> c == Config(None, true, true)
    ensures options.Some? ==> c.maxConcurrent == options.value.maxConcurrent
    ensures options.Some? && options.value.preserveOrder.Some? ==>
              c.preserveOrder == options.value.preserveOrder.value
    ensures options.Some? && options.value.fastFail.Some? ==>
              c.fastFail == options.value.fastFail.value
    ensures options.Some? && options.value.preserveOrder.None? ==> c.preserveOrder
    ensures options.Some? && options.value.fastFail.None? ==> c.fastFail
  {
    var o := OrEmpty(options);
    Config(o.maxConcurrent, o.preserveOrder.GetOr(true), o.fastFail.GetOr(true))
  }

  /** Leaving the options out and passing a record whose fields are all
      undefined configure the executor the same way. */
  lemma OmittedIsEmpty()
    ensures Resolve(None) == Resolve(Some(Options(None, None, None)))
    ensures Resolve(None).preserveOrder && Resolve(None).fastFail
    ensures Resolve(None).maxConcurrent == None
  {
  }

  /** An option that is given is used as given, whatever the other two are. */
  lemma GivenOptionsAreKept(m: Option<int>, p: bool, f: bool)
    ensures Resolve(Some(Options(m, Some(p), Some(f)))) == Config(m, p, f)
  {
  }
}
