/** Lock acquisition (flock.c:210-240): the flock(2) request, the loop that
    retries it after an interruption, and the process-wide timer and SIGALRM
    disposition that -w changes around the loop. */
module LockLoop {
  import opened Wrappers
  import opened Errno
  import opened LockBits
  import opened ExitCodes
  import opened Options
  import Timeval

  /** The operation word passed to flock(2): `type|block`. The type bits
      and LOCK_NB are disjoint, so the bitwise or is a sum. */
  function Operation(t: LockType, nonBlocking: bool): (op: int)
    ensures op / LOCK_NB % 2 == 1 <==> nonBlocking
    ensures op % LOCK_NB == 0 <==> t == Unlock
    ensures op - (if nonBlocking then LOCK_NB else 0) == LOCK_SH <==> t == Shared
    ensures op - (if nonBlocking then LOCK_NB else 0) == LOCK_EX <==> t == Exclusive
  {
    (match t
     case Shared => LOCK_SH
     case Exclusive => LOCK_EX
     case Unlock => LOCK_UN)
    + (if nonBlocking then LOCK_NB else 0)
  }

  /** One flock(fd, type|block) call as the loop sees it: it returned 0, or
      it failed with `errno`, `expired` being the value of timeout_expired
      when the loop tests it. */
  datatype FlockResult = Locked | Failed(errno: Errno, expired: bool)

  /** How the loop ends: the lock is held, the process exits with `code`,
      or the calls seen so far were all retried and the loop is still
      waiting. */
  datatype LockOutcome = Acquired | Denied(code: int) | Waiting

  /** An interrupted call after which timeout_expired is set. */
  predicate Expired(r: FlockResult) {
    r.Failed? && r.expired
  }

  /** The call results as the loop sees them: timeout_expired is set only
      by the SIGALRM handler, which is installed only when -w was given
      (`timed`); without it every flag reads clear. Nothing else changes. */
  function Seen(timed: bool, results: seq<FlockResult>): (seen: seq<FlockResult>)
    ensures |seen| == |results|
    ensures forall j :: 0 <= j < |seen| ==>
      seen[j].Failed? == results[j].Failed? &&
      (seen[j].Failed? ==> seen[j].errno == results[j].errno) &&
      (Expired(seen[j]) <==> timed && Expired(results[j]))
  {
    if timed then results
    else seq(|results|, j requires 0 <= j < |results| =>
           (match results[j] case Locked => Locked case Failed(e, _) => Failed(e, false)))
  }

  /** The only failure the loop retries: EINTR before the timer expired. */
  predicate IsRetry(r: FlockResult) {
    r.Failed? && r.errno == EINTR && !r.expired
  }

  /** The outcome of a call the loop does not retry (flock.c:220-235). */
  function Decide(r: FlockResult): (o: LockOutcome)
    requires !IsRetry(r)
    ensures o != Waiting
    ensures o == Acquired <==> r == Locked
    ensures o == Denied(1) <==> r.Failed? && (r.errno == EWOULDBLOCK || r.errno == EINTR)
    ensures r.Failed? && r.errno != EWOULDBLOCK && r.errno != EINTR ==>
      o == Denied(LockFailureExit(r.errno))
  {
    match r
    case Locked => Acquired
    case Failed(err, _) =>
      if err == EWOULDBLOCK then Denied(1)
      else if err == EINTR then Denied(1)
      else Denied(LockFailureExit(err))
  }

  /** The outcome of the loop and how many flock calls it made. */
  datatype Attempt = Attempt(outcome: LockOutcome, calls: nat)

  /** Reference meaning of the loop over a sequence of call results: the
      first result it does not retry decides, after that many calls. */
  function LockSpec(results: seq<FlockResult>): Attempt {
    match FirstIndex(results, r => !IsRetry(r))
    case Some(k) => Attempt(Decide(results[k]), k + 1)
    case None => Attempt(Waiting, |results|)
  }

  /** The retry loop of main, consuming one call result per flock call. */
  method AcquireLock(results: seq<FlockResult>) returns (outcome: LockOutcome, calls: nat)
    ensures Attempt(outcome, calls) == LockSpec(results)
  {
    calls := 0;
    while calls < |results|
      invariant calls <= |results|
      invariant forall j :: 0 <= j < calls ==> IsRetry(results[j])
    {
      var r := results[calls];
      calls := calls + 1;
      match r
      case Locked =>
        return Acquired, calls;
      case Failed(err, expired) =>
        if err == EWOULDBLOCK {
          return Denied(1), calls;
        } else if err == EINTR {
          if expired {
            return Denied(1), calls;
          }
        } else {
          return Denied(LockFailureExit(err)), calls;
        }
    }
    return Waiting, calls;
  }

  /** Only a call that returned 0 leaves the loop with the lock, and only if
      every call before it was retried. */
  lemma LockedIff(results: seq<FlockResult>)
    ensures LockSpec(results).outcome == Acquired <==>
      exists k :: 0 <= k < |results| && results[k] == Locked &&
        LockSpec(results).calls == k + 1 &&
        forall j :: 0 <= j < k ==> IsRetry(results[j])
  {
    var k := FirstIndex(results, r => !IsRetry(r));
    if LockSpec(results).outcome == Acquired {
      assert results[k.value] == Locked;
    }
  }

  /** An interruption before the timer expired is not a failure: the loop
      repeats the same request and ends as it would have without it. */
  lemma {:induction false} RetriesAreTransparent(retries: seq<FlockResult>, rest: seq<FlockResult>)
    requires forall j :: 0 <= j < |retries| ==> IsRetry(retries[j])
    ensures LockSpec(retries + rest) ==
      Attempt(LockSpec(rest).outcome, |retries| + LockSpec(rest).calls)
  {
    if retries != [] {
      RetriesAreTransparent(retries[1..], rest);
      assert (retries + rest)[1..] == retries[1..] + rest;
    } else {
      assert retries + rest == rest;
    }
  }

  /** With timeout_expired never set, the loop ends only on a result other
      than EINTR. */
  lemma {:induction false} WithoutTimerOnlyOtherErrorsEnd(results: seq<FlockResult>)
    requires forall j :: 0 <= j < |results| ==> !Expired(results[j])
    ensures LockSpec(results).outcome != Waiting ==>
      var r := results[LockSpec(results).calls - 1];
      r == Locked || r.errno != EINTR
  {
  }

  /** The disposition of SIGALRM. */
  datatype Disposition = DefaultAction | Ignored | TimeoutHandler | OtherHandler(id: int)

  /** A struct itimerval: the reload interval and the time left. */
  datatype ITimer = ITimer(interval: Timeval.TimeVal, value: Timeval.TimeVal)

  /** The process-wide state that -w changes: the ITIMER_REAL timer and the
      disposition of SIGALRM. */
  class Alarm {
    var timer: ITimer
    var handler: Disposition

    constructor (timer0: ITimer, handler0: Disposition)
      ensures timer == timer0 && handler == handler0
    {
      timer := timer0;
      handler := handler0;
    }

    /** Install the handler that sets timeout_expired and start the one-shot
        timer, handing back what was there before (flock.c:210-218). */
    method Arm(timeout: Timeval.TimeVal) returns (oldTimer: ITimer, oldHandler: Disposition)
      modifies this
      ensures oldTimer == old(timer) && oldHandler == old(handler)
      ensures handler == TimeoutHandler
      ensures timer == ITimer(Timeval.TimeVal(0, 0), timeout)
    {
      oldTimer, oldHandler := timer, handler;
      handler := TimeoutHandler;
      timer := ITimer(Timeval.TimeVal(0, 0), timeout);
    }

    /** Put back the timer and the disposition saved by Arm
        (flock.c:237-240). */
    method Restore(oldTimer: ITimer, oldHandler: Disposition)
      modifies this
      ensures timer == oldTimer && handler == oldHandler
    {
      timer := oldTimer;
      handler := oldHandler;
    }
  }
}
