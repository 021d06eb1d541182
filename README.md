# flock(1), modelled in Dafny

A model of `flock.c`, the small utility that takes an advisory lock with
flock(2) on a file or on a descriptor it was given, optionally waits for the
lock with a timeout, and then runs a command under the lock and exits with
the command's status. The model covers the program's decisions:

- reading the `-w seconds[.fraction]` argument (`strtotimeval`);
- folding the options into the lock type, the non-blocking and
  close-before-exec flags, and the timeout;
- shaping the positional arguments into a descriptor or a lock file plus a
  command vector (with `$SHELL -c string` for `-c`/`--command`);
- the flock(2) retry loop and the timer and SIGALRM state around it;
- the fork, exec and wait of the command;
- the translation of every errno value and wait status into an exit status.

Every system call is replaced by its result, supplied in an `Environment`
(the open result, the sequence of flock results, the fork result, the errno
seen before execvp and what execvp does). A whole run is described by
`Flock.Expected`: its exit status (or `Blocked` when the supplied flock
results run out while the loop is still retrying), and the trace of system
calls it makes. The imperative parts are methods proved equal to reference
functions: `StrToTimeval` and `ReadFraction` (the three loops of
`strtotimeval`), `FoldOptions` (the getopt loop), `AcquireLock` (the flock
loop), and `Invoke` with `LockAndRun` (`main`). The process-wide
`ITIMER_REAL` timer and SIGALRM disposition are the fields of the class
`LockLoop.Alarm`, which `Arm` and `Restore` update in place.

Modules: `Wrappers` (Option, Result, first index, repetition), `Sysexits`,
`Errno` and `LockBits` (constants, Linux values), `Digits` (digit runs and
their decimal value, the `strtol` stand-in), `Timeval`, `Options`,
`Arguments`, `ExitCodes`, `LockLoop`, `Flock`.

## Model

| member | source | states |
|---|---|---|
| Digits.LeadingNumber | flock.c:81 | The strtol stand-in: the value of the longest run of decimal digits at the start, and the index just past that run (no digit is left unread, the value is below 10^length). |
| Digits.ValueOfDecimal | flock.c:202 | Reading back the decimal spelling of n gives n. |
| Timeval.StrToTimeval | flock.c:75-104 | The method with the C's cursor and accumulator returns exactly the seconds, microseconds and stop index of the reference reading `ParseTimeval`. |
| Timeval.ReadFraction | flock.c:84-100 | The three loops after the '.' (read at most six digits, scale up to six, skip further digits) compute the reference fraction `ParseFraction`: the padded value of the first min(run, 6) digits and the end of the whole run. |
| Timeval.PaddedScales | flock.c:95-96 | Multiplying by 10 once per missing digit multiplies by 10^(missing digits). |
| Timeval.UsecInRange | flock.c:82-102 | For every input string, tv_usec is in 0..999999 and tv_sec is not negative (digits only; strtol's sign and white space are not modelled). |
| Timeval.NoFraction | flock.c:81-84 | Without a '.', tv_usec is 0 and reading stops right after the seconds. |
| Timeval.FractionAt | flock.c:84-100 | For seconds, '.', a digit run and a non-digit: the fraction is the first (at most six) digits padded to six, and reading stops at the end of the run. |
| Timeval.ZeroExtended | flock.c:87-96 | A fraction of fewer than six digits counts as if zeros filled it to six digits. |
| Timeval.ExtraDigitsIgnored | flock.c:87-99 | Digits after the sixth are read past (the stop index passes them) but do not change tv_usec. |
| Timeval.HalfSecond | flock.c:87-96 | ".5" is read as 0 seconds and 500000 microseconds, with the whole string read. |
| Timeval.AcceptsIff | flock.c:149-151 | The -w argument is read to its end exactly when it is a run of digits, or two runs of digits (either may be empty) around one '.'; anything else is a usage error (digits only; strtol's sign and white space are not modelled). |
| ExitCodes.OpenFailureExit | flock.c:194-196 | An open failure exits with EX_OSERR exactly for ENOMEM, EMFILE and ENFILE, with EX_CANTCREAT exactly for EROFS and ENOSPC, and with EX_NOINPUT otherwise. |
| ExitCodes.LockFailureExit | flock.c:233 | A flock error other than EWOULDBLOCK and EINTR exits with EX_OSERR exactly for ENOLCK and ENOMEM, and with EX_DATAERR otherwise. |
| ExitCodes.ExecFailureExit | flock.c:256-260 | A failed execvp exits with EX_OSERR exactly when the errno saved before the call is ENOMEM, and with EX_UNAVAILABLE otherwise. |
| ExitCodes.FailureCodesAreSysexits | flock.c:194-196 | Every failure status is a sysexits code, never 0 or 1. |
| ExitCodes.SignaledIff | flock.c:268 | WIFSIGNALED, as glibc computes it, holds exactly for the signal numbers 1..126. |
| ExitCodes.ChildOutcome | flock.c:266-271 | The status returned after waitpid is always in 0..255. |
| ExitCodes.ChildOutcomeOfEncoded | flock.c:266-271 | For each way a child can end, decoding the kernel's status word gives the promised status: exit code N gives N, signal S gives 128+S, stopped or continued gives EX_OSERR. |
| ExitCodes.ExitedDecodes | flock.c:266-267 | A child that exited with N (status N*256) makes the program return N. |
| ExitCodes.KilledDecodes | flock.c:268-269 | A child killed by signal S (with or without a core dump) makes the program return 128+S. |
| ExitCodes.StoppedDecodes | flock.c:270-271 | A stopped child's status is neither an exit nor a signal death and gives EX_OSERR. |
| Options.LockTypeOf | flock.c:131-140 | Exactly the letters s, e, x and u select a lock type: s gives a shared lock, e and x an exclusive one, u an unlock. |
| Options.Stops | flock.c:131-157 | An option leaves the loop running exactly when it is -s, -e, -x, -u, -o, -n, or a -w whose argument is read to its end; every other option ends the loop. |
| Options.StopCode | flock.c:147-158 | An option that ends the loop exits with 0 exactly for --version, or for a default-branch option whose optopt is 'h' or '?'; a -w argument with characters left over, and every other default-branch option, exits with EX_USAGE. |
| Options.FoldOptions | flock.c:129-160 | The getopt loop returns exactly `FoldSpec`: the exit status of the first option that ends the loop, or the lock type, flags and timeout the options ask for. |
| Options.StopsAt | flock.c:147-158 | The first option that ends the loop decides the exit status. |
| Options.FoldStep | flock.c:130-152 | An accepted option updates only the setting its letter names. |
| Options.LastTypeWins | flock.c:131-140 | The last of -s/-e/-x/-u decides the lock type, whatever non-type options follow it. |
| Options.DefaultExclusive | flock.c:110 | Without a lock-type option the lock is exclusive. |
| Options.OtherOptionKeepsType | flock.c:141-152 | Inserting an option that is not a lock type (-n, -o, -w, ...) anywhere does not change the lock type. |
| Options.WaitSetsTimeout | flock.c:147-149 | A timeout is set exactly when some -w was given. |
| Arguments.ShellOf | flock.c:176-179 | The shell is $SHELL when set and non-empty, else /bin/sh. |
| Arguments.DescriptorOf | flock.c:202-206 | A descriptor argument is accepted exactly when it is all digits, giving its decimal value; otherwise EX_USAGE (digits only; strtol's sign and white space are not modelled). |
| Arguments.ShapeArgs | flock.c:162-206 | With two or more arguments the first is the lock file, and the shape is a usage error exactly when -c/--command is not followed by exactly one argument; with one argument it is a descriptor. |
| Arguments.DescriptorRoundTrip | flock.c:202-206 | The decimal spelling of n names descriptor n. |
| Arguments.EmptyIsDescriptorZero | flock.c:202-206 | An empty descriptor argument is accepted as descriptor 0. |
| Arguments.PlainCommand | flock.c:183-187 | Without -c the command is the remaining arguments, unchanged. |
| Arguments.ShellCommand | flock.c:165-182 | With -c or --command, exactly one more argument is required and the command is [shell, "-c", argument]; otherwise EX_USAGE. |
| LockLoop.Operation | flock.c:220 | The word `type\|block` passed to flock: the LOCK_NB bit is set exactly for -n, and the remaining bits name the lock type (LOCK_SH, LOCK_EX or LOCK_UN). |
| LockLoop.Decide | flock.c:220-234 | A call the loop does not retry ends it: 0 gives the lock; EWOULDBLOCK or an expired EINTR gives exit 1; any other errno gives its lock-failure status. |
| LockLoop.AcquireLock | flock.c:220-235 | The retry loop returns exactly `LockSpec`: the outcome decided by the first result it does not retry, and the number of calls made. |
| LockLoop.LockedIff | flock.c:220-235 | The loop holds the lock exactly when some call returned 0 and every call before it was a retried EINTR. |
| LockLoop.RetriesAreTransparent | flock.c:224-227 | Interruptions before the timer expires are transparent: the loop ends as it would have without them, after that many more calls. |
| LockLoop.Seen | flock.c:65-72 | The results as the loop sees them: timeout_expired is set only by this handler, which is installed only under -w (flock.c:210-218); without it every flag reads clear. The errno of each result is unchanged. |
| LockLoop.WithoutTimerOnlyOtherErrorsEnd | flock.c:224-227 | While timeout_expired stays clear, an EINTR never ends the loop. |
| LockLoop.Alarm.Arm | flock.c:210-218 | Installs the timeout handler and a one-shot timer for the timeout, and hands back the previous timer and disposition. |
| LockLoop.Alarm.Restore | flock.c:237-240 | Puts back the saved timer and disposition. |
| Flock.ChildStatus | flock.c:253-260 | When execvp fails, the child's status decodes to the exec-failure status of the errno saved before the call. |
| Flock.Invoke | flock.c:106-276 | main returns exactly the outcome and system-call trace of `Expected`. A run that armed the timer and did not restore it was given -w, and leaves the timeout handler installed and the timer running with the -w timeout and a zero interval. Every other run leaves the timer and disposition as they were. |
| Flock.LockAndRun | flock.c:210-275 | From the open descriptor on, main returns exactly `AcquireAndRun`, with the loop seeing timeout_expired only when -w installed the handler, and the same guarantee about the timer state. |
| Flock.Supervise | flock.c:242-272 | The command supervisor always exits, with a status in 0..255: 0 and no call without a command; otherwise one fork, and execvp with the command exactly when the fork succeeded. |
| Flock.RunCommand | flock.c:242-272 | The fork, close, execvp and wait stage returns exactly the status and calls of `Supervise`. |
| Flock.TimerEvents | flock.c:210-240 | In every run the timer is armed exactly when -w was given, and restored exactly when it was armed and the lock was obtained. |
| Flock.HeadInOrder | flock.c:188-235 | Up to the end of the lock loop the calls come in order: open, timer, flock calls. |
| Flock.HeadCalls | flock.c:210-235 | Up to the end of the lock loop the timer is armed exactly when -w was given, and every flock call is the same type\|block request on the same descriptor. |
| Flock.SuperviseInOrder | flock.c:244-264 | The supervisor's calls come in order: fork, close, execvp, waitpid. |
| Flock.SuperviseCalls | flock.c:244-264 | There is one fork exactly when there is a command; the child closes the descriptor exactly when -o was given and fork succeeded, and calls execvp with the command. |
| Flock.TailInOrder | flock.c:237-264 | Once the lock is held the calls come in order: restore, fork, close, execvp, waitpid. |
| Flock.TailCalls | flock.c:237-264 | Once the lock is held there is at most one fork, and one exactly when there is a command; the timer is restored exactly when it was armed; the close and execvp happen as the options ask. |
| Flock.SplitAtLock | flock.c:235-237 | After the last flock call nothing arms the timer or calls flock again. |
| Flock.RunInOrder | flock.c:188-264 | Every run makes its system calls stage by stage. |
| Flock.SameRequestEachTime | flock.c:210-227 | The timer is armed exactly when -w was given, and an interrupted flock call is repeated with the identical request. |
| Flock.ForkOnlyUnderLock | flock.c:237-247 | A child is created at most once, exactly when the lock is held and there is a command, and only after an armed timer was restored: the restore comes before the fork in the trace. |
| Flock.CloseIffRequested | flock.c:253-257 | The child calls execvp with the command, and closes the lock descriptor exactly when -o was given; the calls are in stage order, so the close comes before execvp. |
| Flock.OutcomeUnderLock | flock.c:242-275 | Once the lock is held: no command gives 0; a failed fork gives EX_OSERR; a child that ran gives the status promised for the way it ended; a failed execvp gives the exec-failure status of the errno saved before the call. |
| Flock.OutcomeWithoutLock | flock.c:220-234 | When the lock is not obtained the run is blocked exactly when the loop is still waiting; otherwise the last call failed, and the status is 1 for EWOULDBLOCK or EINTR and its lock-failure status otherwise. |
| Flock.BadWaitIsUsageError | flock.c:147-151 | When the first option that ends the loop is a -w whose argument has characters left after the number, the whole run exits with EX_USAGE and makes no system call. |
| Flock.UntimedInterruptsRetried | flock.c:210-227 | Without -w, a lock loop that ends, ends on a result other than EINTR, and a loop that is only ever interrupted never ends. |
| Flock.UntimedRunRetriesInterrupts | flock.c:129-227 | For a whole run without -w in which every flock call is interrupted, the process is still waiting, or it stopped before making any flock call. |
| Flock.AcquireAndRunGuarantees | flock.c:210-275 | From the open descriptor on: ordered calls, the timer armed only with -w, at most one fork, and only under the lock after the timer was restored, with identical flock requests. |
| Flock.RunGuarantees | flock.c:106-276 | The same guarantees for a whole run of main, whatever the options and arguments. |

## Left out

- The system calls themselves (open, flock, fork, execvp, waitpid, close, setitimer, sigaction): the model takes their results as inputs and records the calls in a trace. getenv is the `shell` input.
- Signal delivery and timing: when SIGALRM fires is not modelled. The handler's only effect, setting `timeout_expired`, is the `expired` flag of each failed flock result; the flag is read only when -w installed the handler. A zero timeout and the race between the timer and the call are not modelled.
- SA_RESETHAND: the disposition going back to the default after the first SIGALRM is not modelled; `Alarm` holds the disposition installed by main.
- getopt_long: the model takes the options already tokenised (letter, argument of -w, `optopt`) with the positional arguments split off. Argument permutation, long-option matching and error messages are not modelled.
- strtol: only a leading run of decimal digits is read. Leading white space, a sign, overflow and the `(int)` cast of the descriptor are not modelled.
- The `argc < 2` test is modelled as "no options and no positional arguments".
- Flock.Invoke: requires a positional argument after a successful option loop. When there is none, the C dereferences `argv[optind]` (NULL) at flock.c:202 before testing it, which is undefined behaviour, not a reachable outcome.
- The usage, version and error messages (fprintf, strerror) are not modelled; only the exit statuses are.
- The waitpid retry loop (flock.c:262-264) is reduced to its result, the wait status of the child.
- Timer restore on failure: the timer and SIGALRM handler are restored only after the lock is acquired. A run that exits from inside the lock loop on EWOULDBLOCK or another flock error exits with the handler still installed and the timer still running, as the code does, so the model does not restore on every path. After a timeout the timer has fired and, by SA_RESETHAND, the real disposition is the default again; `Alarm` does not model that (see SA_RESETHAND above).
- Exit status of a failed execvp: it comes from the errno value the child holds before calling execvp (the `errnoBeforeExec` input), not from the error execvp reports, as the code does.
- `Flock.Expected` ends with `Blocked` when the supplied flock results run out while the loop is still retrying; a real run would go on calling flock.
