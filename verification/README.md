# lsh: a minimal command shell, modelled in Dafny

`shell.c` is a small interactive shell. It reads a line, splits it into
whitespace-separated tokens, and runs one of four builtins (`cd`, `help`,
`exit`, `pwd`) or launches an external program. It repeats until a command
returns status 0 or standard input ends. This project models that
read–split–dispatch loop as pure Dafny functions over character sequences.
It proves the properties the shell relies on.

Modules, one per component of `shell.c`:

- `Text` (`text.dfy`): the delimiter set `" \t\r\n\a"`. Also the string
  helpers used in the properties: `Join` (words separated by single spaces),
  `Concat` and `RemoveDelims`.
- `Tokenizer` (`tokenizer.dfy`): `lsh_split_line`.
  - `Strtok` is one call of `strtok`.
  - `Tokenize` is the loop of calls.
  - `SplitLine` is the growable, NULL-terminated token array (`Slot` is one
    `char *` entry).
- `Reader` (`reader.dfy`): `lsh_read_line`.
  - `ReadLine` is a function of the input still waiting on standard input.
  - `ReadLineBuffered` is the version with the growable buffer.
- `Builtins` (`builtins.dfy`): the builtin table, the value each handler
  returns, and `lsh_launch`'s return value. Side effects are tags of
  `Effect`: `CdUsageError`, `ChangeDir(path)`, `PrintHelp(names)`,
  `ExitShell`, `PrintCwd`, `Launch(argv)` and `NoCommand`.
- `Dispatch` (`dispatch.dfy`): `lsh_execute` and its table scan.
- `Shell` (`shell.dfy`): `lsh_loop`.
  - `Run` is the session as a recursive function of the input.
  - `Loop` is the Running/Stopped state machine as a method. It calls the
    buffered reader and `SplitLine`, and it is proved equal to `Run`.

The status values are `Continue` (C value 1) and `Terminate` (C value 0).
The loop goes on while the value is non-zero. A session ends `ByExit`
(after the `exit` builtin) or `ByEndOfInput` (when `exit(EXIT_SUCCESS)` is
called inside the reader). The process exit status is 0 either way.

At end of input the shell exits with status 0, even after reading part of a
final line (shell.c:193-194). A last line without a newline therefore never
runs. `Reader.ReadLine` returns `EndOfInput` exactly when the remaining input
has no newline, and `Shell.RunEndsAtEndOfInput` states that such input runs
nothing.

## Model

| member | source | states |
|---|---|---|
| Text.IsDelimMeansListed | shell.c:136 | the delimiter list, defined once in the order the shell lists it, holds exactly space, tab, carriage return, newline and bell |
| Tokenizer.Strtok | shell.c:149-168 | a token found by one `strtok` call is non-empty and lies inside the remaining text |
| Tokenizer.Tokenize | shell.c:149-169 | the token loop never collects more tokens than the line has characters |
| Tokenizer.TokenizeCount | shell.c:149-169 | a line of n characters yields at most (n + 1) / 2 tokens, because tokens are non-empty and separated by delimiters |
| Tokenizer.StrtokFindsFirstRun | shell.c:149-168 | a `strtok` call finds nothing exactly when the rest of the line is all delimiters; otherwise its token is the first maximal run of non-delimiters (delimiters before it, none inside it, a delimiter or the end after it) |
| Tokenizer.StrtokUnique | shell.c:149-168 | the first maximal run is unique: any position pair meeting that description is the one `strtok` returns |
| Tokenizer.TokenizeYieldsWords | shell.c:149-168 | every token is non-empty and contains no delimiter character |
| Tokenizer.TokenizeEmptyIff | shell.c:149-170 | the argument vector is empty if and only if the line is empty or made only of delimiters |
| Tokenizer.TokenizeAllDelims | shell.c:149-150 | an empty or all-delimiter line yields the zero-length vector |
| Tokenizer.TokenizeWord | shell.c:149-168 | a non-empty delimiter-free line is exactly one token, itself |
| Tokenizer.TokenizeDelimPrefix | shell.c:149-168 | leading delimiters do not change the tokens |
| Tokenizer.TokenizeSplit | shell.c:149-168 | the tokens of `a + [d] + b` for a delimiter `d` are the tokens of `a` followed by those of `b`: no token spans a delimiter and order is kept; with the two lemmas above this fixes the tokens as the maximal runs, left to right |
| Tokenizer.TokenizeKeepsContent | shell.c:149-168 | the tokens, concatenated, are the line with its delimiters removed: every non-delimiter character is kept, in order |
| Tokenizer.TokenizeJoin | shell.c:149-168 | words joined with single spaces tokenize back to the same words |
| Tokenizer.TokenizeNormalize | shell.c:149-168 | joining the tokens of any line with single spaces and tokenizing again gives the same tokens |
| Tokenizer.ArgvOfTerminated | shell.c:170-171 | an array holding the tokens followed by NULL denotes exactly those tokens as an argument vector |
| Tokenizer.SplitLine | shell.c:135-172 | the token array starts at 64 slots and grows by 64; the write position stays inside it, so the final NULL lands in bounds; the array holds exactly the tokens of the line, in order, then NULL |
| Reader.ReadLine | shell.c:188-201 | end of input is reported exactly when no newline remains; otherwise the line is newline-free and the input is the line, a newline, and the rest |
| Reader.ReadLineFirstNewline | shell.c:188-201 | the line returned is exactly the text before the first newline, and the rest follows that newline |
| Reader.ReadLineBuffered | shell.c:174-215 | the buffer starts at 1024 and grows by 1024; the write position stays inside it, so the closing NUL lands in bounds; the buffer holds the line's characters before the NUL; the result agrees with `ReadLine` |
| Builtins.StatusCode | shell.c:243-252 | the C status is 1 or 0 and is non-zero exactly for `Continue` |
| Builtins.RunBuiltin | shell.c:45-91 | only `exit` returns 0; `cd` reports a usage error exactly when `args[1]` is missing and otherwise changes to `args[1]`; no builtin launches a program |
| Builtins.LaunchCommand | shell.c:99-133 | launching runs the whole argument vector and always returns continue, whatever happens to the child |
| Dispatch.FindBuiltinFrom | shell.c:226-232 | the table scan finds the first entry at or after `i` whose name equals the command exactly, or reports that none does |
| Dispatch.FindBuiltin | shell.c:25-30 | a command name is found exactly when it is one of `cd`, `help`, `exit`, `pwd`, and the match is the first such entry |
| Dispatch.Execute | shell.c:217-235 | an empty vector does nothing and continues; the status is terminate exactly when `args[0]` is `exit`; a program is launched exactly when `args[0]` is not a builtin name; `cd` without an operand is a usage error and with one changes to it; `help` lists the four names; `pwd` prints the directory |
| Dispatch.ExitIgnoresArguments | shell.c:73-76 | `exit` terminates whatever arguments follow it |
| Shell.NextState | shell.c:252 | the loop stays Running exactly when the status code is non-zero |
| Shell.Run | shell.c:237-253 | every step of a session but the last returned continue, and the session ended by `exit` exactly when its last step returned terminate |
| Shell.RunFaithful | shell.c:246-248 | each step of a session is a newline-free line, its tokens and the outcome of dispatching them |
| Shell.RunConsumesInput | shell.c:243-252 | a session consumes its input line by line from the front; if it ended by end of input, no newline is left unread |
| Shell.RunEndsAtEndOfInput | shell.c:188-194 | input with no newline runs no command: the partial last line is dropped and the session ends by end of input |
| Shell.RunStopsAtExit | shell.c:243-252 | a line whose status is terminate is the last step, whatever input follows |
| Shell.RunContinues | shell.c:243-252 | a line whose status is continue is one step, and the session carries on with the rest of the input |
| Shell.BlankLineIsNoOp | shell.c:221-224 | a blank or all-delimiter line runs nothing and continues |
| Shell.Loop | shell.c:237-253 | the Running/Stopped state machine over the buffered reader and `SplitLine` produces exactly the session `Run` defines |
| Shell.CdLine | shell.c:45-59 | the line `cd DIR` changes to DIR and continues |
| Shell.WordLine | shell.c:73-91 | the line `pwd` prints the directory and continues; the line `exit` terminates |
| Shell.SessionExample | shell.c:237-253 | feeding `cd DIR`, `pwd`, `exit` yields exactly three steps, changing to DIR, printing the directory, then stopping, whatever input follows |

## Left out

- Shell.Run: assumes launched programs read none of the shell's standard input, so every line after a command reaches `lsh_read_line`. In the source, a child made by `fork`/`execvp` (shell.c:104, 113) inherits standard input and may consume lines itself. How far stdio's buffer behind `getchar` (shell.c:190) has read ahead is not modelled either.
- `lsh_launch` body (`fork`, `execvp`, `waitpid`, shell.c:104-129): OS process creation and waiting. Only the `Launch(argv)` outcome and the continue status are modelled.
- `chdir` and `getcwd` results, the `PATH_MAX` buffer, and all printed text. These are host filesystem state and I/O. `ChangeDir(path)` stands for both a successful and a failed `chdir`, and `PrintCwd` for both outcomes of `getcwd`. Both return continue in the source too.
- Allocation-failure exits after `malloc`/`realloc` (shell.c:143-147, 160-165, 182-186, 207-212), and the leak on a failed `realloc` at shell.c:207. The model's buffers always grow.
- The prompt and the `free` calls of the loop (shell.c:245, 250-251).
- Embedded NUL characters. A NUL in the input would end the C string before `strtok` sees the rest. Lines are treated as NUL-free.
- The C `int` width of the buffer sizes and positions: the model uses unbounded integers, so overflow after about 2^31 characters is not modelled.
- `lsh_num_builtins` (shell.c:38-40): the table length is `|BuiltinStr|`.
- The help banner's wording: `PrintHelp` carries only the builtin names, in table order.
