/** The positional arguments after the options (flock.c:162-208): either a
    descriptor number, or a lock file followed by a command, which is the
    rest of the argument vector or, after -c, a string for the shell. */
module Arguments {
  import opened Wrappers
  import opened Sysexits
  import opened Digits

  /** _PATH_BSHELL from <paths.h>. */
  const PATH_BSHELL := "/bin/sh"

  /** What the program locks: a descriptor it was given, or a file it opens
      and then runs `command` (an argument vector) under the lock. */
  datatype Target = Descriptor(fd: int) | LockFile(filename: string, command: seq<string>)

  predicate IsCommandFlag(a: string) {
    a == "-c" || a == "--command"
  }

  /** The shell for -c: $SHELL, or _PATH_BSHELL when it is unset or empty. */
  function ShellOf(shellEnv: Option<string>): (sh: string)
    ensures sh != []
    ensures shellEnv.Some? && shellEnv.value != [] ==> sh == shellEnv.value
    ensures shellEnv.None? || shellEnv.value == [] ==> sh == PATH_BSHELL
  {
    match shellEnv
    case Some(s) => if s != [] then s else PATH_BSHELL
    case None => PATH_BSHELL
  }

  /** The descriptor form reads its one argument with strtol and rejects any
      character left over. */
  function DescriptorOf(arg: string): (r: Result<Target>)
    ensures r.Success? <==> AllDigits(arg)
    ensures r.Success? ==> r.value == Descriptor(Value(arg))
    ensures r.Failure? ==> r.code == EX_USAGE
  {
    var n := LeadingNumber(arg);
    assert AllDigits(arg) ==> n.end == |arg|;
    assert n.end == |arg| ==> arg[..n.end] == arg;
    if n.end < |arg| then Failure(EX_USAGE) else Success(Descriptor(n.value))
  }

  /** The shape of the invocation, from the positional arguments (at least
      one) and the value of $SHELL. */
  function ShapeArgs(positional: seq<string>, shellEnv: Option<string>): (r: Result<Target>)
    requires |positional| >= 1
    ensures r.Failure? ==> r.code == EX_USAGE
    ensures |positional| >= 2 ==>
      (r.Success? <==> !IsCommandFlag(positional[1]) || |positional| == 3)
    ensures |positional| >= 2 && r.Success? ==>
      r.value.LockFile? && r.value.filename == positional[0]
    ensures |positional| == 1 ==> r == DescriptorOf(positional[0])
  {
    if |positional| > 1 then
      if IsCommandFlag(positional[1]) then
        if |positional| != 3 then Failure(EX_USAGE)
        else Success(LockFile(positional[0], [ShellOf(shellEnv), "-c", positional[2]]))
      else Success(LockFile(positional[0], positional[1..]))
    else
      DescriptorOf(positional[0])
  }

  /** A descriptor written in decimal is the descriptor locked. */
  lemma DescriptorRoundTrip(n: nat, shellEnv: Option<string>)
    ensures ShapeArgs([Decimal(n)], shellEnv) == Success(Descriptor(n))
  {
    ValueOfDecimal(n);
  }

  /** An empty descriptor argument is accepted as descriptor 0: strtol reads
      no digit and leaves nothing over. */
  lemma EmptyIsDescriptorZero(shellEnv: Option<string>)
    ensures ShapeArgs([""], shellEnv) == Success(Descriptor(0))
  {
  }

  /** Without -c the command is the rest of the arguments, unchanged. */
  lemma PlainCommand(file: string, argv: seq<string>, shellEnv: Option<string>)
    requires argv != [] && !IsCommandFlag(argv[0])
    ensures ShapeArgs([file] + argv, shellEnv) == Success(LockFile(file, argv))
  {
    assert ([file] + argv)[1..] == argv;
  }

  /** With -c or --command exactly one more argument is required; it is run
      as `shell -c string`. */
  lemma ShellCommand(file: string, flag: string, rest: seq<string>, shellEnv: Option<string>)
    requires IsCommandFlag(flag)
    ensures var r := ShapeArgs([file, flag] + rest, shellEnv);
      if |rest| == 1
      then r == Success(LockFile(file, [ShellOf(shellEnv), "-c", rest[0]]))
      else r == Failure(EX_USAGE)
  {
    var p := [file, flag] + rest;
    assert p[0] == file && p[1] == flag && |p| == 2 + |rest|;
    assert |rest| == 1 ==> p[2] == rest[0];
  }
}
