/**
 * Outcome types shared by every module.
 *
 * Python raises and C `exit(1)` are modelled as `Err` values carrying a
 * short message, so that an error path is a visible result rather than a
 * precondition.
 */
module Fallible {

  datatype Option<+T> = None | Some(value: T)
  {
    predicate IsSome() { Some? }
  }

  datatype Result<+T> = Ok(value: T) | Err(msg: string)
  {
    predicate IsOk() { Ok? }
  }
}
