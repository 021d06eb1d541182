/** The option loop of main (flock.c:129-160): getopt_long(3) hands over
    one option at a time, and the loop folds them into the lock type, the
    non-blocking flag, the close-before-exec flag and the timeout, or ends
    the process. */
module Options {
  import opened Wrappers
  import opened Sysexits
  import Timeval

  /** The lock operation requested: flock.c's `type`. */
  datatype LockType = Shared | Exclusive | Unlock

  /** What one getopt_long call reports: the option character it returns
      (the short letter, also for the long spellings, or '?' for an error),
      the argument of -w, and the value `optopt` holds after the call. */
  datatype Opt = Opt(letter: char, optarg: string, optopt: char)

  /** What the loop leaves behind when every option was accepted. */
  datatype Settings = Settings(
    lockType: LockType,
    nonBlocking: bool,         // block == LOCK_NB
    closeBeforeExec: bool,     // do_close
    timeout: Option<Timeval.TimeVal>) // have_timeout and timeout.it_value

  /** Either the settings, or the status the process exits with while
      reading the options (usage text or version). */
  datatype Folded = Proceed(settings: Settings) | Quit(code: int)

  /** The lock type an option letter selects: -s, -e or -x, and -u. */
  function LockTypeOf(c: char): (t: Option<LockType>)
    ensures t.Some? <==> c in "sexu"
    ensures t == Some(Shared) <==> c == 's'
    ensures t == Some(Exclusive) <==> c == 'e' || c == 'x'
    ensures t == Some(Unlock) <==> c == 'u'
  {
    if c == 's' then Some(Shared)
    else if c == 'e' || c == 'x' then Some(Exclusive)
    else if c == 'u' then Some(Unlock)
    else None
  }

  /** An option that ends the loop: -V, a -w argument with characters left
      over, and everything the switch sends to its default branch. */
  predicate Stops(o: Opt): (s: bool)
    ensures !s <==>
      LockTypeOf(o.letter).Some? || o.letter == 'o' || o.letter == 'n' ||
      (o.letter == 'w' && Timeval.ParseTimeval(o.optarg).rest == |o.optarg|)
  {
    if o.letter in "sexuon" then false
    else if o.letter == 'w' then !Timeval.Accepts(o.optarg)
    else true
  }

  /** The exit status of an option that ends the loop: 0 for -V; for the
      default branch, 0 when `optopt` is 'h' or '?' (help was asked for) and
      EX_USAGE otherwise. */
  function StopCode(o: Opt): (code: int)
    ensures code == EX_OK || code == EX_USAGE
    ensures code == EX_OK <==>
      o.letter == 'V' || (o.letter != 'w' && (o.optopt == 'h' || o.optopt == '?'))
  {
    if o.letter == 'V' then EX_OK
    else if o.letter == 'w' then EX_USAGE
    else if o.optopt != 'h' && o.optopt != '?' then EX_USAGE
    else EX_OK
  }

  /** The lock type after the options: the last of -s/-e/-x/-u, or
      exclusive when there is none. */
  function EffectiveType(opts: seq<Opt>): LockType {
    if opts == [] then Exclusive
    else match LockTypeOf(opts[|opts| - 1].letter)
      case Some(t) => t
      case None => EffectiveType(opts[..|opts| - 1])
  }

  /** Whether some option returned the letter `c`. */
  predicate HasLetter(opts: seq<Opt>, c: char) {
    exists j :: 0 <= j < |opts| && opts[j].letter == c
  }

  /** The argument of the last -w, if there is one. */
  function LastWait(opts: seq<Opt>): Option<string> {
    if opts == [] then None
    else if opts[|opts| - 1].letter == 'w' then Some(opts[|opts| - 1].optarg)
    else LastWait(opts[..|opts| - 1])
  }

  /** The timeout the options ask for: the last -w argument, read by
      strtotimeval. */
  function TimeoutOf(opts: seq<Opt>): Option<Timeval.TimeVal> {
    match LastWait(opts)
    case None => None
    case Some(arg) => Some(Timeval.ParseTimeval(arg).tv)
  }

  /** Reference meaning of the option list: the first option that stops the
      loop decides the exit status; otherwise every field is as the options
      ask. */
  function FoldSpec(opts: seq<Opt>): Folded {
    match FirstIndex(opts, Stops)
    case Some(j) => Quit(StopCode(opts[j]))
    case None => Proceed(Settings(EffectiveType(opts), HasLetter(opts, 'n'),
                                  HasLetter(opts, 'o'), TimeoutOf(opts)))
  }

  /** The option loop as main runs it, with `type`, `block`, `do_close`,
      `have_timeout` and the timeout updated one option at a time. */
  method FoldOptions(opts: seq<Opt>) returns (r: Folded)
    ensures r == FoldSpec(opts)
  {
    var lockType := Exclusive;
    var block := false;
    var doClose := false;
    var timeout: Option<Timeval.TimeVal> := None;
    var i := 0;
    while i < |opts|
      invariant 0 <= i <= |opts|
      invariant forall j :: 0 <= j < i ==> !Stops(opts[j])
      invariant lockType == EffectiveType(opts[..i])
      invariant block == HasLetter(opts[..i], 'n')
      invariant doClose == HasLetter(opts[..i], 'o')
      invariant timeout == TimeoutOf(opts[..i])
    {
      var o := opts[i];
      if Stops(o) {
        StopsAt(opts, i);
      } else {
        FoldStep(opts, i);
      }
      if o.letter == 's' {
        lockType := Shared;
      } else if o.letter == 'e' || o.letter == 'x' {
        lockType := Exclusive;
      } else if o.letter == 'u' {
        lockType := Unlock;
      } else if o.letter == 'o' {
        doClose := true;
      } else if o.letter == 'n' {
        block := true;
      } else if o.letter == 'w' {
        var tv, eon := Timeval.StrToTimeval(o.optarg);
        if eon < |o.optarg| {
          return Quit(EX_USAGE);
        }
        timeout := Some(tv);
      } else if o.letter == 'V' {
        return Quit(EX_OK);
      } else {
        return Quit(if o.optopt != 'h' && o.optopt != '?' then EX_USAGE else EX_OK);
      }
      i := i + 1;
    }
    assert opts[..i] == opts;
    return Proceed(Settings(lockType, block, doClose, timeout));
  }

  /** The option at `i` ends the loop when none before it did. */
  lemma {:induction false} StopsAt(opts: seq<Opt>, i: nat)
    requires i < |opts| && Stops(opts[i])
    requires forall j :: 0 <= j < i ==> !Stops(opts[j])
    ensures FoldSpec(opts) == Quit(StopCode(opts[i]))
  {
  }

  /** How an accepted option changes what the prefix before it asks for. */
  lemma {:induction false} FoldStep(opts: seq<Opt>, i: nat)
    requires i < |opts| && !Stops(opts[i])
    ensures var o := opts[i];
      EffectiveType(opts[..i + 1]) ==
        (match LockTypeOf(o.letter) case Some(t) => t case None => EffectiveType(opts[..i]))
    ensures HasLetter(opts[..i + 1], 'n') == (HasLetter(opts[..i], 'n') || opts[i].letter == 'n')
    ensures HasLetter(opts[..i + 1], 'o') == (HasLetter(opts[..i], 'o') || opts[i].letter == 'o')
    ensures TimeoutOf(opts[..i + 1]) ==
      if opts[i].letter == 'w' then Some(Timeval.ParseTimeval(opts[i].optarg).tv) else TimeoutOf(opts[..i])
  {
    var p := opts[..i + 1];
    assert p[..i] == opts[..i] && p[i] == opts[i];
    assert forall j :: 0 <= j < i ==> p[j] == opts[..i][j];
  }

  /** The last lock-type option wins, whatever follows it. */
  lemma {:induction false} LastTypeWins(opts: seq<Opt>, j: nat, t: LockType)
    requires j < |opts| && LockTypeOf(opts[j].letter) == Some(t)
    requires forall k :: j < k < |opts| ==> LockTypeOf(opts[k].letter).None?
    ensures EffectiveType(opts) == t
  {
    if j < |opts| - 1 {
      LastTypeWins(opts[..|opts| - 1], j, t);
    }
  }

  /** Without a lock-type option the lock is exclusive. */
  lemma {:induction false} DefaultExclusive(opts: seq<Opt>)
    requires forall k :: 0 <= k < |opts| ==> LockTypeOf(opts[k].letter).None?
    ensures EffectiveType(opts) == Exclusive
  {
    if opts != [] {
      DefaultExclusive(opts[..|opts| - 1]);
    }
  }

  /** An option that is not a lock type (-n, -o, -w, ...) does not change
      the lock type, wherever it stands. */
  lemma {:induction false} OtherOptionKeepsType(a: seq<Opt>, o: Opt, b: seq<Opt>)
    requires LockTypeOf(o.letter).None?
    ensures EffectiveType(a + [o] + b) == EffectiveType(a + b)
  {
    if b == [] {
      assert (a + [o] + b)[..|a|] == a;
      assert a + b == a;
    } else {
      var b' := b[..|b| - 1];
      assert (a + [o] + b)[..|a + [o] + b| - 1] == a + [o] + b';
      assert (a + b)[..|a + b| - 1] == a + b';
      OtherOptionKeepsType(a, o, b');
    }
  }

  /** A timeout is set exactly when some -w was given. */
  lemma {:induction false} WaitSetsTimeout(opts: seq<Opt>)
    ensures TimeoutOf(opts).Some? <==> HasLetter(opts, 'w')
  {
    if opts != [] {
      var init := opts[..|opts| - 1];
      WaitSetsTimeout(init);
      assert forall j :: 0 <= j < |init| ==> init[j] == opts[j];
      if HasLetter(opts, 'w') && opts[|opts| - 1].letter != 'w' {
        var j :| 0 <= j < |opts| && opts[j].letter == 'w';
        assert init[j].letter == 'w';
      }
    }
  }
}
