/** Small value types shared by the command models. */
module Prelude {

  /** A value that may be missing, as an `undefined` property or option is in the CLI. */
  datatype Option<+T> = None | Some(value: T)

  /** What an interactive prompt's `validate` callback answers: `true`, or the
      message shown to the user before the question is asked again. */
  datatype Validation = Accepted | Rejected(message: string)
}
