/** The status codes every native entry point answers with (raw_status.h). */
module Statuses {
  datatype Status =
    | Success
    | InvalidArgument
    | StaleHandle
    | NativeFailure
    | OutputTooSmall
    | QueueOverflow
    | NoSpace
    | MaxBytes
    | Busy

  datatype Option<+T> = None | Some(value: T)
}
