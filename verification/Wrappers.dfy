/** The results of calls that can fail, shared by all modules. */
module Wrappers {
  datatype Option<+T> = None | Some(value: T)

  datatype Errno = EINVAL | ENOSPC | E2BIG | EOVERFLOW | EAGAIN | ERANGE

  datatype Result<+T> = Ok(value: T) | Err(errno: Errno)
}
