/** The dispatcher of the shell (`lsh_execute`): an empty argument vector
    does nothing, a builtin name runs its handler, anything else is launched
    as a program. */
module Dispatch {
  import opened Builtins

  /** Result of looking a command name up in the builtin table. */
  datatype Lookup = Match(index: nat) | NoMatch

  /** The table scan of `lsh_execute` from entry `i` on: the first entry whose
      name equals `name` (by `strcmp`, so exactly and case-sensitively). */
  function FindBuiltinFrom(name: string, i: nat): (r: Lookup)
    requires i <= |BuiltinStr|
    ensures r.Match? ==>
      && i <= r.index < |BuiltinStr|
      && BuiltinStr[r.index] == name
      && forall j :: i <= j < r.index ==> BuiltinStr[j] != name
    ensures r.NoMatch? <==> forall j :: i <= j < |BuiltinStr| ==> BuiltinStr[j] != name
    decreases |BuiltinStr| - i
  {
    if i == |BuiltinStr| then NoMatch
    else if BuiltinStr[i] == name then Match(i)
    else FindBuiltinFrom(name, i + 1)
  }

  /** The whole table scan: the first builtin named `name`, if any. */
  function FindBuiltin(name: string): (r: Lookup)
    ensures r.NoMatch? <==> name !in BuiltinStr
    ensures r.Match? ==>
      && r.index < |BuiltinStr|
      && BuiltinStr[r.index] == name
      && forall j :: 0 <= j < r.index ==> BuiltinStr[j] != name
  {
    FindBuiltinFrom(name, 0)
  }

  /** `lsh_execute`: what a command line's argument vector does and the status
      it hands back. The ensures give the routing by command name, independent
      of how the table is laid out. */
  function Execute(args: seq<string>): (o: Outcome)
    ensures args == [] ==> o == Outcome(NoCommand, Continue)
    ensures o.status == Terminate <==> |args| > 0 && args[0] == "exit"
    ensures o.effect.Launch? <==> |args| > 0 && args[0] !in ["cd", "help", "exit", "pwd"]
    ensures o.effect.Launch? ==> o.effect.argv == args
    ensures |args| > 0 && args[0] == "cd" ==>
      o.effect == (if |args| == 1 then CdUsageError else ChangeDir(args[1]))
    ensures |args| > 0 && args[0] == "help" ==> o.effect == PrintHelp(["cd", "help", "exit", "pwd"])
    ensures |args| > 0 && args[0] == "exit" ==> o.effect == ExitShell
    ensures |args| > 0 && args[0] == "pwd" ==> o.effect == PrintCwd
  {
    if args == [] then Outcome(NoCommand, Continue)
    else
      match FindBuiltin(args[0])
      case Match(i) => RunBuiltin(BuiltinFunc[i], args)
      case NoMatch => LaunchCommand(args)
  }

  /** `exit` stops the shell whatever arguments follow it. */
  lemma ExitIgnoresArguments(extra: seq<string>)
    ensures Execute(["exit"] + extra) == Outcome(ExitShell, Terminate)
  {
  }
}
