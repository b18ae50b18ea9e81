/** Option and Result, and the kinds of exception the build system raises. */
module Wrappers {

  datatype Option<+T> = None | Some(value: T) {
    predicate IsFailure() { None? }
    function PropagateFailure<U>(): Option<U>
      requires None?
    {
      None
    }
    function Extract(): T
      requires Some?
    {
      value
    }
    function GetOr(default: T): T {
      match this
      case Some(v) => v
      case None => default
    }
  }

  /** The build system signals user-facing errors with GiveUp and internal
      inconsistencies with MuddleBug (a subclass of GiveUp). Crash stands for
      a Python runtime error (IndexError, KeyError, ValueError,
      ZeroDivisionError) that the code lets escape. */
  datatype Error = GiveUp(msg: string) | MuddleBug(msg: string) | Crash(msg: string)

  datatype Result<+T> = Ok(value: T) | Err(error: Error) {
    predicate IsFailure() { Err? }
    function PropagateFailure<U>(): Result<U>
      requires Err?
    {
      Err(error)
    }
    function Extract(): T
      requires Ok?
    {
      value
    }
  }

  /** A Result that carries no value. */
  datatype Outcome = Pass | Fail(error: Error) {
    predicate IsFailure() { Fail? }
    function PropagateFailure<U>(): Result<U>
      requires Fail?
    {
      Err(error)
    }
  }

  function Need(condition: bool, error: Error): (o: Outcome)
  {
    if condition then Pass else Fail(error)
  }

  /** A Python value of the kinds the build system accepts as an option
      value or a revision: None, a bool, an int or a string. */
  datatype Value = NoneValue | BoolValue(b: bool) | IntValue(i: int) | StrValue(s: string)

  /** Python truth of such a value. */
  predicate Truthy(v: Value) {
    match v
    case NoneValue => false
    case BoolValue(b) => b
    case IntValue(i) => i != 0
    case StrValue(s) => s != ""
  }
}
