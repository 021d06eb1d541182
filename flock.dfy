/** The whole run of the program (main, flock.c:106-276), with every system
    call replaced by its result, supplied in an Environment, and recorded as
    an Event in the order the process makes it. */
module Flock {
  import opened Wrappers
  import opened Sysexits
  import opened Errno
  import opened ExitCodes
  import opened Options
  import opened Arguments
  import opened LockLoop
  import Timeval

  /** Result of open(filename, O_RDONLY|O_CREAT, 0666). */
  datatype OpenResult = Opened(fd: int) | OpenFailed(errno: Errno)

  /** Result of fork(2), as the parent sees it. */
  datatype ForkResult = Forked | ForkFailed

  /** What happens in the child at execvp(3): the program runs and ends
      with a wait status, or execvp returns. */
  datatype ExecResult = ExecRan(status: int) | ExecFailed

  /** Everything the program learns from outside: $SHELL, and the results
      of its system calls in the order it makes them. `errnoBeforeExec` is
      the value errno holds in the child just before execvp. */
  datatype Environment = Environment(
    shell: Option<string>,
    open: OpenResult,
    flock: seq<FlockResult>,
    fork: ForkResult,
    errnoBeforeExec: Errno,
    exec: ExecResult)

  /** The system calls the program makes, in order. `Close` and `Exec` are
      made by the child; `Reap` is waitpid returning the child's status. */
  datatype Event =
    | Open(filename: string)
    | ArmTimer(timeout: Timeval.TimeVal)
    | Flock(fd: int, op: int)
    | RestoreTimer
    | Fork
    | Close(fd: int)
    | Exec(argv: seq<string>)
    | Reap

  /** How the process ends: with an exit status, or still blocked in the
      lock loop when the supplied flock results run out. */
  datatype Outcome = Exit(code: int) | Blocked

  datatype Behaviour = Behaviour(outcome: Outcome, trace: seq<Event>)

  /** After the options, a positional argument is there to read: the
      descriptor form dereferences argv[optind] unchecked, so a run whose
      options all succeed must leave one. */
  predicate ArgsSuffice(opts: seq<Opt>, positional: seq<string>) {
    positional != [] || opts == [] || exists j :: 0 <= j < |opts| && Stops(opts[j])
  }

  /** The status waitpid reports for the child: that of the program, or,
      when execvp fails, an exit with the code chosen from the errno seen
      before the call. */
  function ChildStatus(env: Environment): (status: int)
    ensures env.exec.ExecFailed? ==>
      ChildOutcome(status) == ExecFailureExit(env.errnoBeforeExec)
  {
    match env.exec
    case ExecRan(s) => s
    case ExecFailed =>
      var t := Exited(ExecFailureExit(env.errnoBeforeExec));
      ChildOutcomeOfEncoded(t);
      Encode(t)
  }

  /** The system calls of the command supervisor: nothing without a
      command; otherwise one fork, then in the child the close asked for by
      -o and execvp, and in the parent waitpid. */
  function SuperviseTrace(doClose: bool, fd: int, cmd: Option<seq<string>>, fork: ForkResult): seq<Event> {
    match cmd
    case None => []
    case Some(argv) =>
      match fork
      case ForkFailed => [Fork]
      case Forked => [Fork] + (if doClose then [Close(fd)] else []) + [Exec(argv), Reap]
  }

  /** The command supervisor: exit 0 without a command, EX_OSERR when fork
      fails, and otherwise the child's translated status. */
  function Supervise(doClose: bool, fd: int, cmd: Option<seq<string>>, env: Environment): (b: Behaviour)
    ensures b.outcome.Exit? && 0 <= b.outcome.code < 256
    ensures cmd.None? ==> b == Behaviour(Exit(EX_OK), [])
    ensures Fork in b.trace <==> cmd.Some?
    ensures cmd.Some? ==> (Exec(cmd.value) in b.trace <==> env.fork == Forked)
  {
    var t := SuperviseTrace(doClose, fd, cmd, env.fork);
    match cmd
    case None => Behaviour(Exit(EX_OK), t)
    case Some(argv) =>
      match env.fork
      case ForkFailed => Behaviour(Exit(EX_OSERR), t)
      case Forked => Behaviour(Exit(ChildOutcome(ChildStatus(env))), t)
  }

  /** The system calls up to the end of the lock loop: what happened
      before (`pre`), arming the timer if -w was given, and `n` flock
      calls. */
  function LockHead(st: Settings, fd: int, pre: seq<Event>, n: nat): seq<Event> {
    var arm := if st.timeout.Some? then [ArmTimer(st.timeout.value)] else [];
    pre + arm + Repeat(Flock(fd, Operation(st.lockType, st.nonBlocking)), n)
  }

  /** The system calls once the lock is held: the restore of the timer if it
      was armed, then the supervisor's calls. */
  function LockTail(st: Settings, fd: int, cmd: Option<seq<string>>, fork: ForkResult): seq<Event> {
    var restore := if st.timeout.Some? then [RestoreTimer] else [];
    restore + SuperviseTrace(st.closeBeforeExec, fd, cmd, fork)
  }

  /** The system calls from the open descriptor on, given how the lock loop
      ended. */
  function RunTrace(st: Settings, fd: int, cmd: Option<seq<string>>, pre: seq<Event>,
                    a: Attempt, fork: ForkResult): seq<Event> {
    LockHead(st, fd, pre, a.calls) +
    (if a.outcome == Acquired then LockTail(st, fd, cmd, fork) else [])
  }

  /** From an open descriptor on: arm the timer, run the lock loop, restore
      the timer once the lock is held, then supervise the command. */
  function AcquireAndRun(st: Settings, fd: int, cmd: Option<seq<string>>, pre: seq<Event>,
                         env: Environment): Behaviour {
    var a := LockSpec(Seen(st.timeout.Some?, env.flock));
    var t := RunTrace(st, fd, cmd, pre, a, env.fork);
    match a.outcome
    case Waiting => Behaviour(Blocked, t)
    case Denied(code) => Behaviour(Exit(code), t)
    case Acquired => Behaviour(Supervise(st.closeBeforeExec, fd, cmd, env).outcome, t)
  }

  /** Reference meaning of a whole run. */
  function Expected(opts: seq<Opt>, positional: seq<string>, env: Environment): Behaviour
    requires ArgsSuffice(opts, positional)
  {
    if opts == [] && positional == [] then Behaviour(Exit(EX_USAGE), [])
    else match FoldSpec(opts)
      case Quit(code) => Behaviour(Exit(code), [])
      case Proceed(st) =>
        assert positional != [];
        match ShapeArgs(positional, env.shell)
        case Failure(code) => Behaviour(Exit(code), [])
        case Success(target) =>
          match target
          case Descriptor(fd) => AcquireAndRun(st, fd, None, [], env)
          case LockFile(name, argv) =>
            match env.open
            case OpenFailed(err) => Behaviour(Exit(OpenFailureExit(err)), [Open(name)])
            case Opened(fd) => AcquireAndRun(st, fd, Some(argv), [Open(name)], env)
  }

  /** Events before the lock stage: at most the open of the lock file. */
  predicate OnlyOpens(pre: seq<Event>) {
    forall i :: 0 <= i < |pre| ==> pre[i].Open?
  }

  predicate Armed(trace: seq<Event>) {
    exists i :: 0 <= i < |trace| && trace[i].ArmTimer?
  }

  /** main: reads the options and the positional arguments, opens the lock
      file, then locks and runs the command. The process-wide timer state
      lives in `alarm`; the call results come from `env`. */
  method Invoke(alarm: Alarm, opts: seq<Opt>, positional: seq<string>, env: Environment)
    returns (outcome: Outcome, trace: seq<Event>)
    requires ArgsSuffice(opts, positional)
    modifies alarm
    ensures Behaviour(outcome, trace) == Expected(opts, positional, env)
    ensures !Armed(trace) || RestoreTimer in trace ==>
      alarm.timer == old(alarm.timer) && alarm.handler == old(alarm.handler)
    ensures Armed(trace) && RestoreTimer !in trace ==>
      FoldSpec(opts).Proceed? && FoldSpec(opts).settings.timeout.Some? &&
      alarm.handler == TimeoutHandler &&
      alarm.timer == ITimer(Timeval.TimeVal(0, 0), FoldSpec(opts).settings.timeout.value)
  {
    if |opts| == 0 && |positional| == 0 {
      return Exit(EX_USAGE), [];
    }
    var folded := FoldOptions(opts);
    if folded.Quit? {
      return Exit(folded.code), [];
    }
    var shaped := ShapeArgs(positional, env.shell);
    if shaped.Failure? {
      return Exit(shaped.code), [];
    }
    match shaped.value {
      case Descriptor(fd) =>
        outcome, trace := LockAndRun(alarm, folded.settings, fd, None, [], env);
      case LockFile(name, argv) =>
        match env.open {
          case OpenFailed(err) =>
            return Exit(OpenFailureExit(err)), [Open(name)];
          case Opened(fd) =>
            outcome, trace := LockAndRun(alarm, folded.settings, fd, Some(argv), [Open(name)], env);
        }
    }
  }

  /** The rest of main once the descriptor is open (flock.c:210-275): arm
      the timer if -w was given, run the lock loop, restore the timer, then
      fork, exec and wait. */
  method LockAndRun(alarm: Alarm, st: Settings, fd: int, cmd: Option<seq<string>>,
                    pre: seq<Event>, env: Environment)
    returns (outcome: Outcome, trace: seq<Event>)
    requires OnlyOpens(pre)
    modifies alarm
    ensures Behaviour(outcome, trace) == AcquireAndRun(st, fd, cmd, pre, env)
    ensures !Armed(trace) || RestoreTimer in trace ==>
      alarm.timer == old(alarm.timer) && alarm.handler == old(alarm.handler)
    ensures Armed(trace) && RestoreTimer !in trace ==>
      st.timeout.Some? && alarm.handler == TimeoutHandler &&
      alarm.timer == ITimer(Timeval.TimeVal(0, 0), st.timeout.value)
  {
    var oldTimer, oldHandler := alarm.timer, alarm.handler;
    var arm: seq<Event> := [];
    if st.timeout.Some? {
      oldTimer, oldHandler := alarm.Arm(st.timeout.value);
      arm := [ArmTimer(st.timeout.value)];
    }
    var lock, calls := AcquireLock(Seen(st.timeout.Some?, env.flock));
    var head := pre + arm + Repeat(Flock(fd, Operation(st.lockType, st.nonBlocking)), calls);
    assert head == LockHead(st, fd, pre, calls);
    TimerEvents(st, fd, cmd, pre, Attempt(lock, calls), env.fork);
    assert head + [] == head;
    if lock == Waiting {
      return Blocked, head;
    }
    if lock.Denied? {
      return Exit(lock.code), head;
    }
    var restore: seq<Event> := [];
    if st.timeout.Some? {
      alarm.Restore(oldTimer, oldHandler);
      restore := [RestoreTimer];
    }
    var status, child := RunCommand(st.closeBeforeExec, fd, cmd, env);
    assert restore + child == LockTail(st, fd, cmd, env.fork);
    return Exit(status), head + (restore + child);
  }

  /** The command stage of main (flock.c:242-272): fork, in the child close
      the lock descriptor if -o was given and execvp the command, in the
      parent wait for the child and translate its status. */
  method RunCommand(doClose: bool, fd: int, cmd: Option<seq<string>>, env: Environment)
    returns (status: int, child: seq<Event>)
    ensures Behaviour(Exit(status), child) == Supervise(doClose, fd, cmd, env)
  {
    status := EX_OK;
    child := [];
    if cmd.Some? {
      child := [Fork];
      if env.fork.ForkFailed? {
        return EX_OSERR, child;
      }
      if doClose {
        child := child + [Close(fd)];
      }
      child := child + [Exec(cmd.value), Reap];
      status := ChildOutcome(ChildStatus(env));
    }
  }

  // The order of the system calls.

  /** The stage of a run an event belongs to. */
  function Phase(e: Event): nat {
    match e
    case Open(_) => 0
    case ArmTimer(_) => 1
    case Flock(_, _) => 2
    case RestoreTimer => 3
    case Fork => 4
    case Close(_) => 5
    case Exec(_) => 6
    case Reap => 7
  }

  /** The events occur stage by stage, never going back to an earlier one. */
  predicate InOrder(t: seq<Event>) {
    forall i, j :: 0 <= i < j < |t| ==> Phase(t[i]) <= Phase(t[j])
  }

  /** No two events of the trace are forks. */
  predicate AtMostOneFork(t: seq<Event>) {
    forall i, j :: 0 <= i < |t| && 0 <= j < |t| && t[i].Fork? && t[j].Fork? ==> i == j
  }

  predicate PhasesWithin(t: seq<Event>, lo: nat, hi: nat) {
    forall i :: 0 <= i < |t| ==> lo <= Phase(t[i]) <= hi
  }

  lemma {:induction false} InOrderAppend(a: seq<Event>, b: seq<Event>, lo: nat, m: nat, hi: nat)
    requires InOrder(a) && PhasesWithin(a, lo, m)
    requires InOrder(b) && PhasesWithin(b, m, hi)
    requires lo <= m <= hi
    ensures InOrder(a + b) && PhasesWithin(a + b, lo, hi)
  {
    var t := a + b;
    forall i, j | 0 <= i < j < |t|
      ensures Phase(t[i]) <= Phase(t[j])
    {
      if j < |a| {
        assert t[i] == a[i] && t[j] == a[j];
      } else if i >= |a| {
        assert t[i] == b[i - |a|] && t[j] == b[j - |a|];
      } else {
        assert t[i] == a[i] && t[j] == b[j - |a|];
      }
    }
    forall i | 0 <= i < |t|
      ensures lo <= Phase(t[i]) <= hi
    {
      if i < |a| {
        assert t[i] == a[i];
      } else {
        assert t[i] == b[i - |a|];
      }
    }
  }

  /** A trace cut where the lock loop ends: what comes after the last flock
      call adds no timer arming and no flock call, and holds every event of
      a later stage. */
  lemma {:induction false} SplitAtLock(head: seq<Event>, rest: seq<Event>)
    requires PhasesWithin(head, 0, 2) && PhasesWithin(rest, 3, 7)
    ensures Armed(head + rest) <==> Armed(head)
    ensures forall i :: 0 <= i < |head + rest| && (head + rest)[i].Flock? ==>
      i < |head| && (head + rest)[i] == head[i]
    ensures AtMostOneFork(rest) ==> AtMostOneFork(head + rest)
    ensures forall e :: Phase(e) >= 3 ==> (e in head + rest <==> e in rest)
  {
    var t := head + rest;
    forall i | |head| <= i < |t|
      ensures Phase(t[i]) >= 3
    {
      assert t[i] == rest[i - |head|];
    }
    if Armed(t) {
      var i :| 0 <= i < |t| && t[i].ArmTimer?;
      assert t[i] == head[i];
    }
    if Armed(head) {
      var i :| 0 <= i < |head| && head[i].ArmTimer?;
      assert t[i] == head[i];
    }
    if AtMostOneFork(rest) {
      forall i, j | 0 <= i < |t| && 0 <= j < |t| && t[i].Fork? && t[j].Fork?
        ensures i == j
      {
        assert t[i] == rest[i - |head|] && t[j] == rest[j - |head|];
      }
    }
    forall e | Phase(e) >= 3
      ensures e in t <==> e in rest
    {
      assert e !in head;
    }
  }

  /** The calls up to the end of the lock loop come stage by stage. */
  lemma {:induction false} HeadInOrder(st: Settings, fd: int, pre: seq<Event>, n: nat)
    requires OnlyOpens(pre)
    ensures InOrder(LockHead(st, fd, pre, n)) && PhasesWithin(LockHead(st, fd, pre, n), 0, 2)
  {
    var arm := if st.timeout.Some? then [ArmTimer(st.timeout.value)] else [];
    var tries := Repeat(Flock(fd, Operation(st.lockType, st.nonBlocking)), n);
    InOrderAppend(pre, arm, 0, 0, 1);
    InOrderAppend(pre + arm, tries, 0, 1, 2);
  }

  /** Up to the end of the lock loop the timer is armed exactly when -w was
      given, and every flock call is the same request. */
  lemma {:induction false} HeadCalls(st: Settings, fd: int, pre: seq<Event>, n: nat)
    requires OnlyOpens(pre)
    ensures Armed(LockHead(st, fd, pre, n)) <==> st.timeout.Some?
    ensures var head := LockHead(st, fd, pre, n);
      forall i :: 0 <= i < |head| && head[i].Flock? ==>
        head[i] == Flock(fd, Operation(st.lockType, st.nonBlocking))
  {
    var arm := if st.timeout.Some? then [ArmTimer(st.timeout.value)] else [];
    var tries := Repeat(Flock(fd, Operation(st.lockType, st.nonBlocking)), n);
    var head := pre + arm + tries;
    forall i | 0 <= i < |head|
      ensures head[i].ArmTimer? <==> |pre| <= i < |pre + arm|
      ensures head[i].Flock? ==> head[i] == Flock(fd, Operation(st.lockType, st.nonBlocking))
    {
      if i < |pre| {
        assert head[i] == pre[i];
      } else if i < |pre + arm| {
        assert head[i] == arm[i - |pre|];
      } else {
        assert head[i] == tries[i - |pre + arm|];
      }
    }
    if st.timeout.Some? {
      assert head[|pre|].ArmTimer?;
    }
  }

  /** The supervisor's calls come stage by stage: fork, close, execvp,
      waitpid. */
  lemma {:induction false} SuperviseInOrder(doClose: bool, fd: int, cmd: Option<seq<string>>, fork: ForkResult)
    ensures InOrder(SuperviseTrace(doClose, fd, cmd, fork))
    ensures PhasesWithin(SuperviseTrace(doClose, fd, cmd, fork), 4, 7)
  {
    var t := SuperviseTrace(doClose, fd, cmd, fork);
    if cmd.Some? && fork == Forked {
      if doClose {
        assert t == [Fork, Close(fd), Exec(cmd.value), Reap];
      } else {
        assert t == [Fork, Exec(cmd.value), Reap];
      }
    }
  }

  /** What the supervisor does: one fork when there is a command, then in
      the child the close asked for by -o and execvp. */
  lemma {:induction false} SuperviseCalls(doClose: bool, fd: int, cmd: Option<seq<string>>, fork: ForkResult)
    ensures var t := SuperviseTrace(doClose, fd, cmd, fork);
      (cmd.Some? <==> t != [] && t[0] == Fork) && forall i :: 0 < i < |t| ==> !t[i].Fork?
    ensures Close(fd) in SuperviseTrace(doClose, fd, cmd, fork) <==> doClose && cmd.Some? && fork == Forked
    ensures cmd.Some? && fork == Forked ==> Exec(cmd.value) in SuperviseTrace(doClose, fd, cmd, fork)
  {
    var t := SuperviseTrace(doClose, fd, cmd, fork);
    if cmd.Some? && fork == Forked {
      if doClose {
        assert t == [Fork, Close(fd), Exec(cmd.value), Reap];
      } else {
        assert t == [Fork, Exec(cmd.value), Reap];
      }
    }
  }

  /** The calls once the lock is held come stage by stage. */
  lemma {:induction false} TailInOrder(st: Settings, fd: int, cmd: Option<seq<string>>, fork: ForkResult)
    ensures InOrder(LockTail(st, fd, cmd, fork)) && PhasesWithin(LockTail(st, fd, cmd, fork), 3, 7)
  {
    var restore := if st.timeout.Some? then [RestoreTimer] else [];
    SuperviseInOrder(st.closeBeforeExec, fd, cmd, fork);
    InOrderAppend(restore, SuperviseTrace(st.closeBeforeExec, fd, cmd, fork), 3, 3, 7);
  }

  /** Once the lock is held: the timer is restored if it was armed, there is
      one fork exactly when there is a command, and the child closes the
      descriptor when -o was given and calls execvp. */
  lemma {:induction false} TailCalls(st: Settings, fd: int, cmd: Option<seq<string>>, fork: ForkResult)
    ensures var tail := LockTail(st, fd, cmd, fork);
      AtMostOneFork(tail) && (Fork in tail <==> cmd.Some?) &&
      (RestoreTimer in tail <==> st.timeout.Some?) &&
      (Close(fd) in tail <==> st.closeBeforeExec && cmd.Some? && fork == Forked) &&
      (cmd.Some? && fork == Forked ==> Exec(cmd.value) in tail)
  {
    var restore := if st.timeout.Some? then [RestoreTimer] else [];
    var sup := SuperviseTrace(st.closeBeforeExec, fd, cmd, fork);
    var tail := restore + sup;
    if cmd.None? {
      assert tail == restore;
    } else if fork == ForkFailed {
      assert tail == restore + [Fork];
    } else if st.closeBeforeExec {
      assert tail == restore + [Fork, Close(fd), Exec(cmd.value), Reap];
    } else {
      assert tail == restore + [Fork, Exec(cmd.value), Reap];
    }
  }

  /** Every run from the open descriptor on makes its system calls stage by
      stage: the timer is armed before the first flock call and restored
      after the last one, the fork follows, and the child closes the
      descriptor before execvp. */
  lemma {:induction false} RunInOrder(st: Settings, fd: int, cmd: Option<seq<string>>,
                                    pre: seq<Event>, a: Attempt, fork: ForkResult)
    requires OnlyOpens(pre)
    ensures InOrder(RunTrace(st, fd, cmd, pre, a, fork))
  {
    HeadInOrder(st, fd, pre, a.calls);
    if a.outcome == Acquired {
      TailInOrder(st, fd, cmd, fork);
      InOrderAppend(LockHead(st, fd, pre, a.calls), LockTail(st, fd, cmd, fork), 0, 2, 7);
    } else {
      assert RunTrace(st, fd, cmd, pre, a, fork) == LockHead(st, fd, pre, a.calls);
    }
  }

  /** The timer is armed exactly when -w was given, and every flock call
      makes the same request on the same descriptor: an interrupted call is
      repeated unchanged. */
  lemma {:induction false} SameRequestEachTime(st: Settings, fd: int, cmd: Option<seq<string>>,
                                             pre: seq<Event>, a: Attempt, fork: ForkResult)
    requires OnlyOpens(pre)
    ensures Armed(RunTrace(st, fd, cmd, pre, a, fork)) <==> st.timeout.Some?
    ensures var t := RunTrace(st, fd, cmd, pre, a, fork);
      forall i :: 0 <= i < |t| && t[i].Flock? ==>
        t[i] == Flock(fd, Operation(st.lockType, st.nonBlocking))
  {
    HeadInOrder(st, fd, pre, a.calls);
    HeadCalls(st, fd, pre, a.calls);
    var tail := if a.outcome == Acquired then LockTail(st, fd, cmd, fork) else [];
    if a.outcome == Acquired {
      TailInOrder(st, fd, cmd, fork);
    }
    SplitAtLock(LockHead(st, fd, pre, a.calls), tail);
  }

  /** The timer events of a run: it is armed exactly when -w was given, and
      restored exactly when it was armed and the lock was obtained. */
  lemma {:induction false} TimerEvents(st: Settings, fd: int, cmd: Option<seq<string>>,
                                     pre: seq<Event>, a: Attempt, fork: ForkResult)
    requires OnlyOpens(pre)
    ensures var t := RunTrace(st, fd, cmd, pre, a, fork);
      (Armed(t) <==> st.timeout.Some?) &&
      (RestoreTimer in t <==> st.timeout.Some? && a.outcome == Acquired)
  {
    SameRequestEachTime(st, fd, cmd, pre, a, fork);
    HeadInOrder(st, fd, pre, a.calls);
    var head := LockHead(st, fd, pre, a.calls);
    assert RestoreTimer !in head by {
      assert forall i :: 0 <= i < |head| ==> Phase(head[i]) <= 2;
    }
    if a.outcome == Acquired {
      TailInOrder(st, fd, cmd, fork);
      TailCalls(st, fd, cmd, fork);
      SplitAtLock(head, LockTail(st, fd, cmd, fork));
    } else {
      assert RunTrace(st, fd, cmd, pre, a, fork) == head;
    }
  }

  /** A child is created only once the lock is held and there is a command,
      at most once, and only after a timer that was armed has been
      restored. */
  lemma {:induction false} ForkOnlyUnderLock(st: Settings, fd: int, cmd: Option<seq<string>>,
                                           pre: seq<Event>, a: Attempt, fork: ForkResult)
    requires OnlyOpens(pre)
    ensures var t := RunTrace(st, fd, cmd, pre, a, fork);
      AtMostOneFork(t) &&
      (Fork in t <==> a.outcome == Acquired && cmd.Some?) &&
      (Fork in t && Armed(t) ==> RestoreTimer in t) &&
      forall i, j :: 0 <= i < |t| && 0 <= j < |t| && t[i] == RestoreTimer && t[j] == Fork ==> i < j
  {
    ForkOnceUnderLock(st, fd, cmd, pre, a, fork);
    RunInOrder(st, fd, cmd, pre, a, fork);
    RestoreBeforeFork(RunTrace(st, fd, cmd, pre, a, fork));
  }

  /** Which runs fork, and how often, without regard to order. */
  lemma {:induction false} ForkOnceUnderLock(st: Settings, fd: int, cmd: Option<seq<string>>,
                                           pre: seq<Event>, a: Attempt, fork: ForkResult)
    requires OnlyOpens(pre)
    ensures var t := RunTrace(st, fd, cmd, pre, a, fork);
      AtMostOneFork(t) &&
      (Fork in t <==> a.outcome == Acquired && cmd.Some?) &&
      (Fork in t && Armed(t) ==> RestoreTimer in t)
  {
    HeadInOrder(st, fd, pre, a.calls);
    SameRequestEachTime(st, fd, cmd, pre, a, fork);
    var head := LockHead(st, fd, pre, a.calls);
    if a.outcome == Acquired {
      TailInOrder(st, fd, cmd, fork);
      TailCalls(st, fd, cmd, fork);
      SplitAtLock(head, LockTail(st, fd, cmd, fork));
    } else {
      assert RunTrace(st, fd, cmd, pre, a, fork) == head;
      assert Fork !in head by {
        assert forall i :: 0 <= i < |head| ==> Phase(head[i]) <= 2;
      }
    }
  }

  /** In a trace in stage order, a restore of the timer comes before any
      fork. */
  lemma {:induction false} RestoreBeforeFork(t: seq<Event>)
    requires InOrder(t)
    ensures forall i, j :: 0 <= i < |t| && 0 <= j < |t| && t[i] == RestoreTimer && t[j] == Fork ==> i < j
  {
  }

  /** Once the child runs, it calls execvp with the command, and it has
      closed the lock descriptor first exactly when -o was given. */
  lemma {:induction false} CloseIffRequested(st: Settings, fd: int, argv: seq<string>,
                                           pre: seq<Event>, a: Attempt)
    requires OnlyOpens(pre)
    requires a.outcome == Acquired
    ensures var t := RunTrace(st, fd, Some(argv), pre, a, Forked);
      InOrder(t) && Exec(argv) in t && (Close(fd) in t <==> st.closeBeforeExec)
  {
    RunInOrder(st, fd, Some(argv), pre, a, Forked);
    HeadInOrder(st, fd, pre, a.calls);
    TailInOrder(st, fd, Some(argv), Forked);
    TailCalls(st, fd, Some(argv), Forked);
    SplitAtLock(LockHead(st, fd, pre, a.calls), LockTail(st, fd, Some(argv), Forked));
  }

  /** The process outcome once the lock is held: 0 without a command,
      EX_OSERR when fork fails, and otherwise the translated status of the
      child, which for a program that ran is the one promised for the way it
      ended, and for a failed execvp is chosen from the errno seen before
      the call. */
  lemma {:induction false} OutcomeUnderLock(st: Settings, fd: int, cmd: Option<seq<string>>,
                                          pre: seq<Event>, env: Environment)
    requires LockSpec(Seen(st.timeout.Some?, env.flock)).outcome == Acquired
    ensures var o := AcquireAndRun(st, fd, cmd, pre, env).outcome;
      (cmd.None? ==> o == Exit(EX_OK)) &&
      (cmd.Some? && env.fork == ForkFailed ==> o == Exit(EX_OSERR)) &&
      (cmd.Some? && env.fork == Forked ==>
        (forall t :: ValidTermination(t) && env.exec == ExecRan(Encode(t)) ==> o == Exit(Promised(t))) &&
        (env.exec == ExecFailed ==> o == Exit(ExecFailureExit(env.errnoBeforeExec))))
  {
    forall t | ValidTermination(t) && env.exec == ExecRan(Encode(t))
      ensures ChildOutcome(ChildStatus(env)) == Promised(t)
    {
      ChildOutcomeOfEncoded(t);
    }
  }

  /** When the lock is not obtained the process exits with 1 if the call
      would have blocked or the timer expired, with the lock error's status
      otherwise, or is still waiting. */
  lemma {:induction false} OutcomeWithoutLock(st: Settings, fd: int, cmd: Option<seq<string>>,
                                            pre: seq<Event>, env: Environment)
    requires LockSpec(Seen(st.timeout.Some?, env.flock)).outcome != Acquired
    ensures var o := AcquireAndRun(st, fd, cmd, pre, env).outcome;
      var a := LockSpec(Seen(st.timeout.Some?, env.flock));
      (a.outcome == Waiting <==> o == Blocked) &&
      (a.outcome != Waiting ==>
        0 < a.calls <= |env.flock| &&
        var r := env.flock[a.calls - 1];
        r.Failed? &&
        o == Exit(if r.errno == EWOULDBLOCK || r.errno == EINTR then 1
                  else LockFailureExit(r.errno)))
  {
  }

  /** A -w argument with characters left after the number, given before any
      other option that ends the loop, is a usage error: the process exits
      with EX_USAGE before opening or locking anything. */
  lemma {:induction false} BadWaitIsUsageError(opts: seq<Opt>, positional: seq<string>,
                                              env: Environment, j: nat)
    requires j < |opts| && opts[j].letter == 'w' && !Timeval.Accepts(opts[j].optarg)
    requires forall k :: 0 <= k < j ==> !Stops(opts[k])
    ensures ArgsSuffice(opts, positional)
    ensures Expected(opts, positional, env) == Behaviour(Exit(EX_USAGE), [])
  {
    assert Stops(opts[j]);
    StopsAt(opts, j);
  }

  /** Without -w no handler sets timeout_expired, so an interrupted flock
      call is always retried: a lock loop that ends, ends on a result other
      than EINTR, and a loop that is only ever interrupted never ends. */
  lemma {:induction false} UntimedInterruptsRetried(st: Settings, fd: int, cmd: Option<seq<string>>,
                                                  pre: seq<Event>, env: Environment)
    requires st.timeout.None?
    ensures var a := LockSpec(Seen(false, env.flock));
      (a.outcome != Waiting ==>
        0 < a.calls <= |env.flock| &&
        (env.flock[a.calls - 1] == Locked || env.flock[a.calls - 1].errno != EINTR)) &&
      ((forall j :: 0 <= j < |env.flock| ==> env.flock[j].Failed? && env.flock[j].errno == EINTR) ==>
        AcquireAndRun(st, fd, cmd, pre, env).outcome == Blocked)
  {
    var seen := Seen(false, env.flock);
    WithoutTimerOnlyOtherErrorsEnd(seen);
  }

  /** A whole run without -w: when every flock call is interrupted, the
      process either stops before the lock stage or is still waiting; an
      interruption never makes it exit. */
  lemma {:induction false} UntimedRunRetriesInterrupts(opts: seq<Opt>, positional: seq<string>,
                                                     env: Environment)
    requires ArgsSuffice(opts, positional)
    requires !HasLetter(opts, 'w')
    requires forall j :: 0 <= j < |env.flock| ==> env.flock[j].Failed? && env.flock[j].errno == EINTR
    ensures var b := Expected(opts, positional, env);
      b.outcome == Blocked || forall i :: 0 <= i < |b.trace| ==> !b.trace[i].Flock?
  {
    WaitSetsTimeout(opts);
    if !(opts == [] && positional == []) && FoldSpec(opts).Proceed? {
      var st := FoldSpec(opts).settings;
      var shaped := ShapeArgs(positional, env.shell);
      if shaped.Success? {
        match shaped.value
        case Descriptor(fd) =>
          UntimedInterruptsRetried(st, fd, None, [], env);
        case LockFile(name, argv) =>
          match env.open
          case OpenFailed(_) =>
          case Opened(fd) =>
            UntimedInterruptsRetried(st, fd, Some(argv), [Open(name)], env);
      }
    }
  }

  /** The guarantees of one run from the open descriptor on. */
  lemma {:induction false} AcquireAndRunGuarantees(st: Settings, fd: int, cmd: Option<seq<string>>,
                                                 pre: seq<Event>, env: Environment)
    requires OnlyOpens(pre)
    ensures var t := AcquireAndRun(st, fd, cmd, pre, env).trace;
      InOrder(t) && (Armed(t) ==> st.timeout.Some?) &&
      AtMostOneFork(t) &&
      (Fork in t ==> LockSpec(Seen(st.timeout.Some?, env.flock)).outcome == Acquired &&
                     (Armed(t) ==> RestoreTimer in t)) &&
      forall i, j :: 0 <= i < |t| && 0 <= j < |t| && t[i].Flock? && t[j].Flock? ==> t[i] == t[j]
  {
    var a := LockSpec(Seen(st.timeout.Some?, env.flock));
    assert AcquireAndRun(st, fd, cmd, pre, env).trace == RunTrace(st, fd, cmd, pre, a, env.fork);
    RunInOrder(st, fd, cmd, pre, a, env.fork);
    ForkOnlyUnderLock(st, fd, cmd, pre, a, env.fork);
    SameRequestEachTime(st, fd, cmd, pre, a, env.fork);
  }

  /** The ordering guarantees of a whole run: system calls stage by stage,
      the timer armed only when -w was given, at most one child, a child
      only under the lock and only after the timer was restored, and the
      same flock request every time. */
  lemma {:induction false} RunGuarantees(opts: seq<Opt>, positional: seq<string>, env: Environment)
    requires ArgsSuffice(opts, positional)
    ensures var t := Expected(opts, positional, env).trace;
      InOrder(t) &&
      (Armed(t) ==> FoldSpec(opts).Proceed? && FoldSpec(opts).settings.timeout.Some?) &&
      AtMostOneFork(t) &&
      (Fork in t ==> FoldSpec(opts).Proceed? &&
                     LockSpec(Seen(FoldSpec(opts).settings.timeout.Some?, env.flock)).outcome == Acquired &&
                     (Armed(t) ==> RestoreTimer in t)) &&
      forall i, j :: 0 <= i < |t| && 0 <= j < |t| && t[i].Flock? && t[j].Flock? ==> t[i] == t[j]
  {
    if !(opts == [] && positional == []) && FoldSpec(opts).Proceed? {
      var st := FoldSpec(opts).settings;
      var shaped := ShapeArgs(positional, env.shell);
      if shaped.Success? {
        match shaped.value
        case Descriptor(fd) =>
          AcquireAndRunGuarantees(st, fd, None, [], env);
        case LockFile(name, argv) =>
          match env.open
          case OpenFailed(_) =>
          case Opened(fd) =>
            AcquireAndRunGuarantees(st, fd, Some(argv), [Open(name)], env);
      }
    }
  }
}
