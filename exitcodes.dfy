/** The translations from an errno value or a child's wait status to the
    status the program exits with (flock.c:194-196, 233, 260, 266-271). */
module ExitCodes {
  import opened Sysexits
  import opened Errno

  /** Exit status when the lock file cannot be opened: out of memory or of
      descriptors is an operating-system error, a read-only or full file
      system means the file cannot be created, anything else means there is
      no input. */
  function OpenFailureExit(err: Errno): (code: int)
    ensures code == EX_OSERR <==> err == ENOMEM || err == EMFILE || err == ENFILE
    ensures code == EX_CANTCREAT <==> err == EROFS || err == ENOSPC
    ensures code == EX_NOINPUT <==> !(err in {ENOMEM, EMFILE, ENFILE, EROFS, ENOSPC})
  {
    if err == ENOMEM || err == EMFILE || err == ENFILE then EX_OSERR
    else if err == EROFS || err == ENOSPC then EX_CANTCREAT
    else EX_NOINPUT
  }

  /** Exit status for a flock(2) failure other than EWOULDBLOCK and EINTR:
      running out of lock-table space or memory is an operating-system
      error, anything else a data error. */
  function LockFailureExit(err: Errno): (code: int)
    ensures code == EX_OSERR <==> err == ENOLCK || err == ENOMEM
    ensures code == EX_DATAERR <==> !(err == ENOLCK || err == ENOMEM)
  {
    if err == ENOLCK || err == ENOMEM then EX_OSERR else EX_DATAERR
  }

  /** Exit status of the child when execvp(3) fails. `err` is the errno
      the child saw BEFORE calling execvp, not the error execvp reported. */
  function ExecFailureExit(err: Errno): (code: int)
    ensures code == EX_OSERR <==> err == ENOMEM
    ensures code == EX_UNAVAILABLE <==> err != ENOMEM
  {
    if err == ENOMEM then EX_OSERR else EX_UNAVAILABLE
  }

  /** No failure status can be mistaken for success (0) or for the lock
      being denied (1): all of them are <sysexits.h> codes. */
  lemma FailureCodesAreSysexits(err: Errno)
    ensures EX_USAGE <= OpenFailureExit(err) <= EX_CANTCREAT
    ensures EX_USAGE <= LockFailureExit(err) <= EX_CANTCREAT
    ensures EX_USAGE <= ExecFailureExit(err) <= EX_CANTCREAT
  {
  }

  // The <sys/wait.h> macros, as glibc defines them, on an int status.

  /** WTERMSIG: the low seven bits. */
  function TermSig(status: int): (sig: int)
    ensures 0 <= sig < 128
  {
    status % 128
  }

  /** WEXITSTATUS: bits 8 to 15. */
  function ExitStatus(status: int): (code: int)
    ensures 0 <= code < 256
  {
    (status % 65536) / 256
  }

  /** WIFEXITED: no signal number in the low seven bits. */
  predicate IfExited(status: int) {
    TermSig(status) == 0
  }

  /** The value of a byte read as a signed char. */
  function SignedChar(x: int): int
    requires 0 <= x < 256
  {
    if x < 128 then x else x - 256
  }

  /** WIFSIGNALED: ((signed char) (WTERMSIG(status) + 1) >> 1) > 0. */
  predicate IfSignaled(status: int) {
    SignedChar(TermSig(status) + 1) / 2 > 0
  }

  /** WIFSIGNALED holds exactly for the signal numbers 1 to 126: 0 means the
      child exited and 127 (0x7f) that it stopped or continued. */
  lemma SignaledIff(status: int)
    ensures IfSignaled(status) <==> 1 <= TermSig(status) <= 126
  {
  }

  /** What the program returns after waiting for its child (flock.c:266-271):
      the child's exit code, 128 plus the number of the signal that killed
      it, or EX_OSERR for any other status. */
  function ChildOutcome(status: int): (outcome: int)
    ensures 0 <= outcome < 256
  {
    if IfExited(status) then ExitStatus(status)
    else if IfSignaled(status) then TermSig(status) + 128
    else EX_OSERR
  }

  /** How a child can end, as waitpid(2) reports it. */
  datatype Termination =
    | Exited(code: int)                  // exit(code) or return from main
    | Killed(sig: int, coreDumped: bool) // terminated by a signal
    | Stopped(sig: int)                  // stopped by a signal
    | Continued                          // resumed by SIGCONT

  predicate ValidTermination(t: Termination) {
    match t
    case Exited(code) => 0 <= code < 256
    case Killed(sig, _) => 1 <= sig <= 126
    case Stopped(sig) => 1 <= sig < 256
    case Continued => true
  }

  /** The status word the kernel builds: W_EXITCODE, the signal number with
      WCOREFLAG, W_STOPCODE, and __W_CONTINUED. */
  function Encode(t: Termination): (status: int)
    requires ValidTermination(t)
    ensures 0 <= status < 65536
  {
    match t
    case Exited(code) => code * 256
    case Killed(sig, core) => sig + (if core then 128 else 0)
    case Stopped(sig) => sig * 256 + 127
    case Continued => 65535
  }

  /** The outcome the program promises for each way the child can end. */
  function Promised(t: Termination): int {
    match t
    case Exited(code) => code
    case Killed(sig, _) => 128 + sig
    case Stopped(_) => EX_OSERR
    case Continued => EX_OSERR
  }

  /** Decoding the kernel's status word gives the promised outcome: a child
      exiting with 7 makes the program exit with 7, one killed by signal 9
      makes it exit with 137. */
  lemma ChildOutcomeOfEncoded(t: Termination)
    requires ValidTermination(t)
    ensures ChildOutcome(Encode(t)) == Promised(t)
  {
    match t
    case Exited(code) => ExitedDecodes(code);
    case Killed(sig, core) => KilledDecodes(sig, core);
    case Stopped(sig) => StoppedDecodes(sig);
    case Continued =>
  }

  lemma {:induction false} ExitedDecodes(code: int)
    requires 0 <= code < 256
    ensures ChildOutcome(code * 256) == code
  {
    assert TermSig(code * 256) == 0;
    assert ExitStatus(code * 256) == code;
  }

  lemma {:induction false} KilledDecodes(sig: int, core: bool)
    requires 1 <= sig <= 126
    ensures ChildOutcome(sig + (if core then 128 else 0)) == 128 + sig
  {
    var status := sig + (if core then 128 else 0);
    assert TermSig(status) == sig;
    assert IfSignaled(status);
  }

  lemma {:induction false} StoppedDecodes(sig: int)
    requires 1 <= sig < 256
    ensures !IfExited(sig * 256 + 127) && !IfSignaled(sig * 256 + 127)
    ensures ChildOutcome(sig * 256 + 127) == EX_OSERR
  {
    assert TermSig(sig * 256 + 127) == 127;
    assert !IfSignaled(sig * 256 + 127);
  }
}
