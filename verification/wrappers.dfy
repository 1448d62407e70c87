/** Optional values, error-or-value results, and the state-plus-answer pair that models a
 *  Java method which mutates its receiver and also returns something. */
module Wrappers {

  datatype Option<T> = None | Some(value: T)

  datatype Result<T, E> = Ok(value: T) | Err(error: E)

  /** The receiver after a call (`state`) together with the call's return value (`value`). */
  datatype Step<S, V> = Step(state: S, value: V)
}
