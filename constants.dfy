/** Process exit statuses from <sysexits.h> that the program uses. */
module Sysexits {
  const EX_OK := 0
  const EX_USAGE := 64        // command line usage error
  const EX_DATAERR := 65      // data format error
  const EX_NOINPUT := 66      // cannot open input
  const EX_UNAVAILABLE := 69  // service unavailable
  const EX_OSERR := 71        // system error (out of memory, cannot fork, ...)
  const EX_CANTCREAT := 73    // cannot create (user) output file
}

/** The errno values the program tests, with their Linux numbers. */
module Errno {
  type Errno = int

  const EINTR: Errno := 4
  const EWOULDBLOCK: Errno := 11  // the same number as EAGAIN
  const ENOMEM: Errno := 12
  const ENFILE: Errno := 23
  const EMFILE: Errno := 24
  const ENOSPC: Errno := 28
  const EROFS: Errno := 30
  const ENOLCK: Errno := 37
}

/** Operation bits of flock(2) from <sys/file.h>. */
module LockBits {
  const LOCK_SH := 1
  const LOCK_EX := 2
  const LOCK_NB := 4
  const LOCK_UN := 8
}
