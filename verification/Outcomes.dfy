/** Results of kernel calls. A kernel `panic` halts the machine, so it is an outcome
    of its own: nothing runs after it. */
module Outcomes {
  datatype Outcome<+T> = Done(value: T) | Panic

  datatype Option<+T> = None | Some(value: T)
}
