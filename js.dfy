/** Values of the JavaScript runtime that the connector's code manipulates:
    a possibly-`undefined` value, a number (which may be NaN) and a `Date`
    (which may be an Invalid Date). */
module Js {

  /** A value that may be `undefined` (a missing array element, attribute or key). */
  datatype Option<+T> = None | Some(value: T) {
    function GetOr(default: T): T {
      match this
      case Some(v) => v
      case None => default
    }
  }

  /** `xs[i]` in JavaScript: `undefined` past the end of the array. */
  function At<T>(xs: seq<T>, i: nat): Option<T> {
    if i < |xs| then Some(xs[i]) else None
  }

  /** A JavaScript number as the connector sees it: a real value or NaN.
      Infinities and the sign of zero play no role in the code modelled. */
  datatype JsNumber = Num(value: real) | NaN {
    /** `!x` for a number: zero and NaN are the falsy numbers. */
    predicate Falsy() {
      NaN? || value == 0.0
    }
  }

  /** A JavaScript `Date`: a time value (milliseconds since the epoch) or an Invalid Date. */
  datatype JsDate = ValidDate(time: int) | InvalidDate

  /** `a > b` on two `Date` objects: both are converted to their time values,
      and any comparison involving NaN (an Invalid Date) is false. */
  predicate After(a: JsDate, b: JsDate) {
    a.ValidDate? && b.ValidDate? && a.time > b.time
  }

  /** `a >= b` on two `Date` objects, with the same NaN rule. */
  predicate AtOrAfter(a: JsDate, b: JsDate) {
    a.ValidDate? && b.ValidDate? && a.time >= b.time
  }
}
