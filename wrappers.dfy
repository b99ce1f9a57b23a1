/**
 * Failure-compatible wrappers shared by every component.
 *
 * `Field` stands for one key of a loosely typed dictionary: the key may be
 * missing, present with the value None, or present with a value. Reading
 * code that uses `d.get(k)` cannot tell the first two apart; code that uses
 * `d.get(k, default)` can.
 */
module Wrappers {

  datatype Option<+T> = None | Some(value: T) {

    predicate IsFailure() {
      None?
    }

    function PropagateFailure<U>(): Option<U>
      requires None?
    {
      None
    }

    function Extract(): T
      requires Some?
    {
      value
    }

    function GetOr(default: T): T {
      match this
      case Some(v) => v
      case None => default
    }
  }

  datatype Result<+R, +E> = Ok(value: R) | Err(error: E) {

    predicate IsFailure() {
      Err?
    }

    function PropagateFailure<U>(): Result<U, E>
      requires Err?
    {
      Err(error)
    }

    function Extract(): R
      requires Ok?
    {
      value
    }
  }

  /** One dictionary key: missing, present with None, or present with a value. */
  datatype Field<+T> = Absent | Null | Val(value: T) {

    /** What `d.get(k)` yields: None both when the key is missing and when it holds None. */
    function Get(): Option<T> {
      match this
      case Val(v) => Some(v)
      case _ => None
    }
  }

  /** The field written by `d[k] = v` where `v` may be None. */
  function Present<T>(v: Option<T>): (f: Field<T>)
    ensures f != Absent
    ensures f.Get() == v
  {
    match v
    case Some(x) => Val(x)
    case None => Null
  }
}
