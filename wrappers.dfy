/** Option and Result types shared by every module, and the Python failures
    the modelled scripts can end in. */
module Wrappers {

  datatype Option<+T> = None | Some(value: T)

  datatype Result<+T, +E> = Ok(value: T) | Err(error: E)

  /** The ways a modelled script stops without producing its normal output:
      an uncaught Python exception (`CalledProcessError` is raised by
      `subprocess.check_output` when its command exits with a non-zero
      status), or an explicit error message followed by `exit()`. */
  datatype Failure =
    | NameError
    | IndexError
    | KeyError
    | ValueError
    | StopIteration
    | ZeroDivisionError
    | CalledProcessError
    | Exit(message: string)
}
