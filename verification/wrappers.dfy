/** Option and Result wrappers, plus the JavaScript nullish and truthiness
    readings the rest of the model uses. */
module Wrappers {

  /** A value that may be missing: JavaScript `null` or `undefined` where the
      code does not tell the two apart. */
  datatype Option<+T> = None | Some(value: T) {

    /** The value, or `default` when missing. */
    function GetOr(default: T): T {
      match this
      case Some(v) => v
      case None => default
    }
  }

  /** JavaScript `a ?? b`: the first operand unless it is nullish. */
  function Or<T>(a: Option<T>, b: Option<T>): (r: Option<T>)
    ensures a.Some? ==> r == a
    ensures a.None? ==> r == b
  {
    if a.Some? then a else b
  }

  /** A JavaScript string value used in a boolean position: missing and the
      empty string are both falsy. */
  predicate Truthy(s: Option<string>) {
    s.Some? && s.value != ""
  }

  /** JavaScript `a || b` on optional strings. */
  function OrElse(a: Option<string>, b: Option<string>): (r: Option<string>)
    ensures Truthy(a) ==> r == a
    ensures !Truthy(a) ==> r == b
  {
    if Truthy(a) then a else b
  }

  /** The three JavaScript states the code sometimes distinguishes. */
  datatype Nullable<+T> = Undefined | Null | Value(value: T) {
    /** `x ?? null`: undefined collapses onto null. */
    function ToOption(): Option<T> {
      if Value? then Some(value) else None
    }
  }

  /** A JavaScript number as far as the code inspects it: a finite value
      (only whole numbers are modelled) or NaN and the infinities. */
  datatype Number = Finite(value: int) | NonFinite

  /** Success or a thrown error carrying its message. */
  datatype Result<+R> = Ok(value: R) | Err(message: string) {
    predicate IsFailure() {
      Err?
    }

    function PropagateFailure<U>(): Result<U>
      requires Err?
    {
      Err(message)
    }

    function Extract(): R
      requires Ok?
    {
      value
    }
  }
}
