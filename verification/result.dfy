/**
 * The `[data, error]` pairs of the shared utilities
 * (packages/shared/src/utils/result.ts). A `null` half is None; a thrown
 * value is kept as the error half. The source tests the error half by
 * JavaScript truthiness (`!error`, `error && ...`), so every operation that
 * looks at it takes `truthy`, which says which error values are truthy: a
 * thrown `0`, `""` or `null` is present in the pair but counts as no error.
 */
module ResultPairs {
  import opened Prelude

  /** `readonly [T | null, E | null]`. */
  datatype Pair<T, E> = Pair(data: Option<T>, error: Option<E>)

  /**
   * How a promise settled: with a value (None when it resolved to `null`),
   * or by throwing.
   */
  datatype Settled<T, E> = Resolved(value: Option<T>) | Rejected(reason: E)

  /** `tryCatch`: a value goes to the data half, a thrown error to the error half. */
  function TryCatch<T, E>(settled: Settled<T, E>): (r: Pair<T, E>)
    ensures settled.Resolved? <==> r.error.None?
    ensures settled.Resolved? ==> r.data == settled.value
    ensures settled.Rejected? ==> r == Pair(None, Some(settled.reason))
  {
    match settled
    case Resolved(v) => Pair(v, None)
    case Rejected(e) => Pair(None, Some(e))
  }

  /** The error half holds a truthy value. */
  predicate HasError<T, E>(r: Pair<T, E>, truthy: E -> bool)
  {
    r.error.Some? && truthy(r.error.value)
  }

  /**
   * `mapResultError`: the data half stays; a truthy error is mapped, and
   * an absent or falsy one becomes `null`.
   */
  function MapResultError<T, E, E2>(r: Pair<T, E>, mapper: E -> E2, truthy: E -> bool): (m: Pair<T, E2>)
    ensures m.data == r.data
    ensures HasError(r, truthy) <==> m.error.Some?
    ensures HasError(r, truthy) ==> m.error == Some(mapper(r.error.value))
  {
    if r.error.None? || !truthy(r.error.value) then Pair(r.data, None)
    else Pair(r.data, Some(mapper(r.error.value)))
  }

  /**
   * Mapping twice is mapping once with the composed mapper, where an error
   * survives when it is truthy and so is its first image.
   */
  lemma MapResultErrorCompose<T, E, E2, E3>(r: Pair<T, E>, f: E -> E2, t1: E -> bool, g: E2 -> E3, t2: E2 -> bool)
    ensures MapResultError(MapResultError(r, f, t1), g, t2)
         == MapResultError(r, e => g(f(e)), e => t1(e) && t2(f(e)))
  {
  }

  /** What `unwrapResult` throws. */
  datatype Thrown<E, X> =
    | Custom(made: X)        // `makeError(error)`
    | Rethrown(error: E)     // the error itself, when it is an `Error`
    | UnknownError           // `new Error("Unknown error")`

  /**
   * `unwrapResult`. `makeError` is the optional factory; `isError` stands
   * for `error instanceof Error`; `truthy` for the test in `error && makeError`.
   */
  function UnwrapResult<T, E, X>(r: Pair<T, E>, makeError: Option<E -> X>, isError: E -> bool, truthy: E -> bool): (o: Outcome<T, Thrown<E, X>>)
    ensures r.data.Some? <==> o.Ok?
    ensures r.data.Some? ==> o == Ok(r.data.value)
    ensures r.data.None? && HasError(r, truthy) && makeError.Some? ==> o == Fail(Custom(makeError.value(r.error.value)))
    ensures r.data.None? && r.error.Some? && !(truthy(r.error.value) && makeError.Some?) && isError(r.error.value)
      ==> o == Fail(Rethrown(r.error.value))
    ensures r.data.None? && (r.error.None? || (!(truthy(r.error.value) && makeError.Some?) && !isError(r.error.value)))
      ==> o == Fail(UnknownError)
  {
    if r.data.Some? then Ok(r.data.value)
    else if r.error.Some? && truthy(r.error.value) && makeError.Some? then Fail(Custom(makeError.value(r.error.value)))
    else if r.error.Some? && isError(r.error.value) then Fail(Rethrown(r.error.value))
    else Fail(UnknownError)
  }

  /**
   * Unwrapping what `tryCatch` produced gives back a non-null value, throws
   * "Unknown error" for a `null` one, and otherwise reports the thrown error.
   */
  lemma UnwrapTryCatch<T, E, X>(settled: Settled<T, E>, makeError: Option<E -> X>, isError: E -> bool, truthy: E -> bool)
    ensures settled.Resolved? && settled.value.Some? ==>
      UnwrapResult(TryCatch(settled), makeError, isError, truthy) == Ok(settled.value.value)
    ensures settled.Resolved? && settled.value.None? ==>
      UnwrapResult(TryCatch(settled), makeError, isError, truthy) == Fail(UnknownError)
    ensures settled.Rejected? && truthy(settled.reason) && makeError.Some? ==>
      UnwrapResult(TryCatch(settled), makeError, isError, truthy) == Fail(Custom(makeError.value(settled.reason)))
    ensures settled.Rejected? && !(truthy(settled.reason) && makeError.Some?) && isError(settled.reason) ==>
      UnwrapResult(TryCatch(settled), makeError, isError, truthy) == Fail(Rethrown(settled.reason))
    ensures settled.Rejected? && !(truthy(settled.reason) && makeError.Some?) && !isError(settled.reason) ==>
      UnwrapResult(TryCatch(settled), makeError, isError, truthy) == Fail(UnknownError)
  {
  }

  /** Data wins over an error that is also present. */
  lemma UnwrapPrefersData<T, E, X>(v: T, e: E, makeError: Option<E -> X>, isError: E -> bool, truthy: E -> bool)
    ensures UnwrapResult(Pair(Some(v), Some(e)), makeError, isError, truthy) == Ok(v)
  {
  }

  /**
   * A falsy error is as good as none: `mapResultError` drops it and
   * `unwrapResult` treats the pair like `[null, null]` unless it is an `Error`.
   */
  lemma FalsyErrorIgnored<T, E, E2, X>(d: Option<T>, e: E, mapper: E -> E2, makeError: Option<E -> X>, isError: E -> bool, truthy: E -> bool)
    requires !truthy(e)
    ensures MapResultError(Pair(d, Some(e)), mapper, truthy) == Pair(d, None)
    ensures !isError(e) ==>
      UnwrapResult(Pair(d, Some(e)), makeError, isError, truthy) == UnwrapResult(Pair(d, None), makeError, isError, truthy)
  {
  }
}
