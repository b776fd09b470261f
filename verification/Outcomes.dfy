/** Result types shared by the models. */
module Outcomes {

  datatype Option<+T> = None | Some(value: T)

  /** A computation that either finishes or stops on one of the program's panics. */
  datatype Outcome<+T> = Panic | Done(value: T)

  /** An operation stops on a panic, is refused without a trace, or is accepted. */
  datatype Reply<+T> = Stopped | Refused | Accepted(value: T)
}
