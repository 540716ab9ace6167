/** The builtin commands of the shell and what each returns to the main
    loop. Their side effects (changing or printing the working directory,
    printing the help text) are represented by the `Effect` they report. */
module Builtins {

  /** The status a command hands back to the main loop. */
  datatype Status = Continue | Terminate

  /** The C `int` the handlers return: the loop runs on while it is non-zero. */
  function StatusCode(s: Status): (code: int)
    ensures code != 0 <==> s == Continue
    ensures code == 0 || code == 1
  {
    match s
    case Continue => 1
    case Terminate => 0
  }

  /** The handlers of the builtin table. */
  datatype Builtin = Cd | Help | Exit | Pwd

  /** Names of the builtins, in table order. */
  const BuiltinStr: seq<string> := ["cd", "help", "exit", "pwd"]

  /** Handlers of the builtins, parallel to `BuiltinStr`. */
  const BuiltinFunc: seq<Builtin> := [Cd, Help, Exit, Pwd]

  /** What running a command does, as far as the shell itself can tell. */
  datatype Effect =
    | NoCommand                      // blank line: nothing runs
    | CdUsageError                   // `cd` without an operand: usage message, no directory change
    | ChangeDir(path: string)        // `chdir(path)`; a failure is reported and ignored
    | PrintHelp(names: seq<string>)  // banner, then the builtin names in table order
    | ExitShell                      // `exit`: no side effect
    | PrintCwd                       // `getcwd` printed, or its failure reported
    | Launch(argv: seq<string>)      // fork, `execvp(argv[0], argv)`, wait for the child

  /** The effect of a command and the status it returns. */
  datatype Outcome = Outcome(effect: Effect, status: Status)

  /** Runs builtin `b` on the argument vector `args`, whose first element is
      the builtin's own name. `cd` looks at `args[1]`, which is NULL when the
      vector has a single element. Only `exit` stops the loop; every other
      handler returns 1, including when its system call fails. */
  function RunBuiltin(b: Builtin, args: seq<string>): (o: Outcome)
    requires |args| > 0
    ensures o.status == Terminate <==> b == Exit
    ensures b == Cd ==> (o.effect == CdUsageError <==> |args| == 1)
    ensures b == Cd && |args| > 1 ==> o.effect == ChangeDir(args[1])
    ensures !o.effect.Launch? && !o.effect.NoCommand?
  {
    match b
    case Cd =>
      if |args| == 1 then Outcome(CdUsageError, Continue)
      else Outcome(ChangeDir(args[1]), Continue)
    case Help => Outcome(PrintHelp(BuiltinStr), Continue)
    case Exit => Outcome(ExitShell, Terminate)
    case Pwd => Outcome(PrintCwd, Continue)
  }

  /** `lsh_launch`: the child runs the program and the shell waits for it;
      whatever happens to the child, including a failed `fork` or `execvp`,
      the shell carries on. */
  function LaunchCommand(args: seq<string>): (o: Outcome)
    requires |args| > 0
    ensures o.status == Continue
    ensures o.effect.Launch? && o.effect.argv == args
  {
    Outcome(Launch(args), Continue)
  }
}
