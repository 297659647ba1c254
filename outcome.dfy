/** Optional values, results that may fail with an errno, and the errno
    values the signal layer returns (as positive numbers; the C functions
    return their negation). */
module Outcome {

  datatype Option<T> = None | Some(value: T)

  datatype Result<T> = Ok(value: T) | Err(errno: int)

  /** Bad address. */
  const EFAULT: int := 14

  /** Invalid argument. */
  const EINVAL: int := 22

  /** Restart the system call if no handler ran. */
  const ERESTARTNOHAND: int := 514
}
