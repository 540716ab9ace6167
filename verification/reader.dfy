/** The line reader of the shell (`lsh_read_line`), as a function of the
    characters still waiting on standard input. */
module Reader {

  /** Initial size of the line buffer and the amount it grows by. */
  const RlBufSize: nat := 1024

  /** What one read produces: the characters before the first newline and
      the input left after that newline, or end of input, on which the shell
      exits with a success status. */
  datatype ReadResult = Line(text: string, rest: string) | EndOfInput

  /** `lsh_read_line`: characters are taken up to the first newline, which is
      consumed and dropped. When the input ends before a newline, whatever was
      read is discarded and the process exits successfully. */
  function ReadLine(input: string): (r: ReadResult)
    ensures r.EndOfInput? <==> '\n' !in input
    ensures r.Line? ==> '\n' !in r.text && input == r.text + "\n" + r.rest
    decreases |input|
  {
    if input == [] then EndOfInput
    else if input[0] == '\n' then Line([], input[1..])
    else
      match ReadLine(input[1..])
      case EndOfInput => EndOfInput
      case Line(text, rest) => Line([input[0]] + text, rest)
  }

  /** The line returned is exactly the text before the first newline: for any
      input of the form `text + "\n" + rest` with no newline in `text`, the
      reader returns `text` and leaves `rest`. */
  lemma ReadLineFirstNewline(text: string, rest: string)
    requires '\n' !in text
    ensures ReadLine(text + "\n" + rest) == Line(text, rest)
  {
    var input := text + "\n" + rest;
    var r := ReadLine(input);
    assert input[|text|] == '\n';
    assert r.Line?;
    var t := r.text;
    // the first newline of the input sits at |t| and at |text|
    assert forall i :: 0 <= i < |t| ==> input[i] == t[i];
    assert forall i :: 0 <= i < |text| ==> input[i] == text[i];
    assert input[|t|] == '\n';
    assert t == input[..|t|];
    assert text == input[..|text|];
    assert r.rest == input[|t| + 1..];
  }

  /** `lsh_read_line` with its buffer: the buffer starts with 1024 bytes and
      grows by 1024 whenever the next write position reaches its size, so the
      closing NUL always lands inside the buffer. Bytes not yet written are
      uninitialised in the source and NUL here. */
  method ReadLineBuffered(input: string)
    returns (r: ReadResult, buffer: seq<char>, position: nat)
    ensures r == ReadLine(input)
    ensures r.Line? ==> position == |r.text|
    ensures r.Line? ==> position < |buffer|
    ensures r.Line? ==> |buffer| == RlBufSize * (position / RlBufSize + 1)
    ensures r.Line? ==> buffer[..position] == r.text && buffer[position] == '\0'
  {
    var bufsize: nat := RlBufSize;
    buffer := seq(bufsize, _ => '\0');
    position := 0;
    while true
      invariant position <= |input|
      invariant |buffer| == bufsize
      invariant position < bufsize
      invariant bufsize == RlBufSize * (position / RlBufSize + 1)
      invariant buffer[..position] == input[..position]
      invariant '\n' !in input[..position]
      decreases |input| - position
    {
      if position == |input| {
        // getchar() returned EOF: exit(EXIT_SUCCESS)
        assert input[..position] == input;
        r := EndOfInput;
        return;
      }
      var c := input[position];
      if c == '\n' {
        buffer := buffer[position := '\0'];
        r := Line(buffer[..position], input[position + 1..]);
        assert input == input[..position] + "\n" + input[position + 1..];
        ReadLineFirstNewline(input[..position], input[position + 1..]);
        return;
      }
      buffer := buffer[position := c];
      assert input[..position + 1] == input[..position] + [c];
      position := position + 1;
      if position >= bufsize {
        bufsize := bufsize + RlBufSize;
        buffer := buffer + seq(RlBufSize, _ => '\0');
      }
    }
  }
}
