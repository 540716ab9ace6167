/** The main loop of the shell (`lsh_loop`): read a line, split it into an
    argument vector, dispatch it, and repeat while the status says continue.
    The loop is a two-state machine, Running and Stopped; end of input ends
    the process from inside the reader. */
module Shell {
  import opened Text
  import opened Tokenizer
  import opened Reader
  import opened Builtins
  import opened Dispatch

  /** One iteration of the loop: the line read, its argument vector and what
      dispatching it did. */
  datatype Step = Step(line: string, args: seq<string>, outcome: Outcome)

  /** How a session ended: the `exit` builtin, or end of input inside the
      reader. The process exits with status 0 either way. */
  datatype Stop = ByExit | ByEndOfInput

  /** The iterations of a session, in order, and how it ended. */
  datatype Session = Session(steps: seq<Step>, stop: Stop)

  datatype LoopState = Running | Stopped

  /** The loop condition `while (status)`. */
  function NextState(status: Status): (next: LoopState)
    ensures next == Running <==> StatusCode(status) != 0
  {
    match status
    case Continue => Running
    case Terminate => Stopped
  }

  /** The input the steps consumed: each line with its newline. */
  function Transcript(steps: seq<Step>): string {
    if steps == [] then [] else steps[0].line + "\n" + Transcript(steps[1..])
  }

  /** One iteration is faithful to the reader, tokenizer and dispatcher. */
  predicate Faithful(step: Step) {
    && '\n' !in step.line
    && step.args == Tokenize(step.line)
    && step.outcome == Execute(step.args)
  }

  lemma TranscriptCons(step: Step, steps: seq<Step>)
    ensures Transcript([step] + steps) == step.line + "\n" + Transcript(steps)
  {
    assert ([step] + steps)[1..] == steps;
  }

  /** Putting the same text in front keeps a prefix a prefix, and what
      follows it. */
  lemma PrefixAfter(x: string, a: string, b: string)
    requires a <= b
    ensures x + a <= x + b
    ensures (x + b)[|x + a|..] == b[|a|..]
  {
    assert (x + b)[..|x + a|] == x + b[..|a|];
  }

  lemma AppendAssoc<T>(a: seq<T>, b: seq<T>, c: seq<T>)
    ensures a + (b + c) == (a + b) + c
  {
  }

  /** The session the shell runs on `input`, defined line by line: every
      step but the last continued, and the session ended by `exit` exactly
      when its last step returned Terminate. */
  function Run(input: string): (s: Session)
    ensures forall i :: 0 <= i < |s.steps| - 1 ==> s.steps[i].outcome.status == Continue
    ensures s.stop == ByExit <==> |s.steps| > 0 && s.steps[|s.steps| - 1].outcome.status == Terminate
    decreases |input|
  {
    match ReadLine(input)
    case EndOfInput => Session([], ByEndOfInput)
    case Line(text, rest) =>
      var args := Tokenize(text);
      var step := Step(text, args, Execute(args));
      if step.outcome.status == Terminate then Session([step], ByExit)
      else
        var tail := Run(rest);
        Session([step] + tail.steps, tail.stop)
  }

  /** Unfolds one line of `Run`. */
  lemma RunLine(input: string)
    requires ReadLine(input).Line?
    ensures
      var text, rest := ReadLine(input).text, ReadLine(input).rest;
      var step := Step(text, Tokenize(text), Execute(Tokenize(text)));
      Run(input) ==
        if step.outcome.status == Terminate then Session([step], ByExit)
        else Session([step] + Run(rest).steps, Run(rest).stop)
  {
  }

  /** Every step of a session is one line of the input, tokenized and
      dispatched. */
  lemma {:induction false} RunFaithful(input: string)
    ensures forall i :: 0 <= i < |Run(input).steps| ==> Faithful(Run(input).steps[i])
    decreases |input|
  {
    var r := ReadLine(input);
    if r.Line? {
      RunLine(input);
      RunFaithful(r.rest);
    }
  }

  /** A session consumes its input line by line from the front; when it ends
      by end of input, no newline is left in what it did not consume. */
  lemma {:induction false} RunConsumesInput(input: string)
    ensures Transcript(Run(input).steps) <= input
    ensures Run(input).stop == ByEndOfInput ==>
      '\n' !in input[|Transcript(Run(input).steps)|..]
    decreases |input|
  {
    var r := ReadLine(input);
    if r.Line? {
      var text, rest := r.text, r.rest;
      var step := Step(text, Tokenize(text), Execute(Tokenize(text)));
      RunLine(input);
      if step.outcome.status == Terminate {
        TranscriptCons(step, []);
        PrefixAfter(text + "\n", [], rest);
      } else {
        var tail := Run(rest).steps;
        RunConsumesInput(rest);
        TranscriptCons(step, tail);
        PrefixAfter(text + "\n", Transcript(tail), rest);
      }
    }
  }

  /** Input without a newline runs nothing: end of input is met inside the
      reader, and a partial last line is discarded with the process exiting
      successfully. */
  lemma RunEndsAtEndOfInput(input: string)
    requires '\n' !in input
    ensures Run(input) == Session([], ByEndOfInput)
  {
  }

  /** A line whose command is `exit` ends the session right after it, whatever
      input follows. */
  lemma RunStopsAtExit(line: string, rest: string)
    requires '\n' !in line
    requires Execute(Tokenize(line)).status == Terminate
    ensures Run(line + "\n" + rest) ==
      Session([Step(line, Tokenize(line), Execute(Tokenize(line)))], ByExit)
  {
    ReadLineFirstNewline(line, rest);
  }

  /** Any other line is one step of the session, which then goes on with the
      rest of the input. */
  lemma RunContinues(line: string, rest: string)
    requires '\n' !in line
    requires Execute(Tokenize(line)).status == Continue
    ensures Run(line + "\n" + rest) ==
      Session([Step(line, Tokenize(line), Execute(Tokenize(line)))] + Run(rest).steps, Run(rest).stop)
  {
    ReadLineFirstNewline(line, rest);
  }

  /** A blank line, or one of delimiters only, is a no-op: nothing runs and
      the loop continues. */
  lemma BlankLineIsNoOp(line: string)
    requires AllDelims(line)
    ensures Execute(Tokenize(line)) == Outcome(NoCommand, Continue)
  {
    TokenizeAllDelims(line);
  }

  /** `lsh_loop` with its state machine: starting Running, each iteration
      reads a line, splits it, dispatches it and moves to the state the
      status selects; it stops after the first Terminate, or when the reader
      meets end of input. */
  method Loop(input: string) returns (s: Session)
    ensures s == Run(input)
  {
    var state := Running;
    var steps: seq<Step> := [];
    var rest := input;
    while state == Running
      invariant state == Running ==> Run(input) == Session(steps + Run(rest).steps, Run(rest).stop)
      invariant state == Stopped ==> Run(input) == Session(steps, ByExit)
      decreases |rest|
    {
      var r, buffer, position := ReadLineBuffered(rest);
      if r.EndOfInput? {
        // exit(EXIT_SUCCESS) inside the reader
        assert steps + [] == steps;
        return Session(steps, ByEndOfInput);
      }
      var tokens, count := SplitLine(r.text);
      var args := Argv(tokens);
      var outcome := Execute(args);
      var step := Step(r.text, args, outcome);
      assert step == Step(r.text, Tokenize(r.text), Execute(Tokenize(r.text)));
      RunLine(rest);
      if outcome.status == Continue {
        var later := Run(r.rest).steps;
        assert Run(rest).steps == [step] + later;
        AppendAssoc(steps, [step], later);
      }
      steps := steps + [step];
      rest := r.rest;
      state := NextState(outcome.status);
    }
    s := Session(steps, ByExit);
  }

  /** `cd DIR` changes to DIR and continues. */
  lemma CdLine(dir: string)
    requires IsWord(dir)
    ensures '\n' !in "cd " + dir
    ensures Execute(Tokenize("cd " + dir)) == Outcome(ChangeDir(dir), Continue)
  {
    assert IsDelim('\n');
    assert Join(["cd", dir]) == "cd " + dir;
    TokenizeJoin(["cd", dir]);
  }

  /** `pwd` prints the directory and continues; `exit` stops. */
  lemma WordLine(w: string)
    requires w == "pwd" || w == "exit"
    ensures '\n' !in w
    ensures Execute(Tokenize(w)) ==
      if w == "pwd" then Outcome(PrintCwd, Continue) else Outcome(ExitShell, Terminate)
  {
    TokenizeWord(w);
  }

  /** The lines `pwd` and `exit` print the directory and then stop,
      whatever input follows. */
  lemma PwdThenExit(rest: string)
    ensures var s := Run("pwd\nexit\n" + rest);
      && |s.steps| == 2 && s.stop == ByExit
      && s.steps[0].outcome == Outcome(PrintCwd, Continue)
      && s.steps[1].outcome == Outcome(ExitShell, Terminate)
  {
    var pwd, exit := "pwd", "exit";
    assert "pwd\nexit\n" + rest == pwd + "\n" + (exit + "\n" + rest);
    WordLine(pwd);
    WordLine(exit);
    RunContinues(pwd, exit + "\n" + rest);
    RunStopsAtExit(exit, rest);
  }

  /** A session feeding `cd DIR`, `pwd` and `exit` changes to DIR, prints
      the working directory and stops, whatever input follows. */
  lemma SessionExample(dir: string, rest: string)
    requires IsWord(dir)
    ensures var s := Run("cd " + dir + "\npwd\nexit\n" + rest);
      && |s.steps| == 3 && s.stop == ByExit
      && s.steps[0].outcome == Outcome(ChangeDir(dir), Continue)
      && s.steps[1].outcome == Outcome(PrintCwd, Continue)
      && s.steps[2].outcome == Outcome(ExitShell, Terminate)
  {
    var cd, tail := "cd " + dir, "pwd\nexit\n" + rest;
    assert "cd " + dir + "\npwd\nexit\n" + rest == cd + "\n" + tail;
    CdLine(dir);
    PwdThenExit(rest);
    RunContinues(cd, tail);
  }
}
