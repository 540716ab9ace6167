/** The tokenizer of the shell (`lsh_split_line`): a line is cut into the
    maximal runs of non-delimiter characters by repeated calls of `strtok`,
    and the runs are stored in a growable array of pointers closed by NULL. */
module Tokenizer {
  import opened Text

  /** The first position at or after `i` that is a delimiter, or `|s|`. */
  function SkipWord(s: string, i: nat): (n: nat)
    requires i <= |s|
    ensures i <= n <= |s|
    ensures NoDelimsIn(s, i, n)
    ensures n < |s| ==> IsDelim(s[n])
    decreases |s| - i
  {
    if i == |s| || IsDelim(s[i]) then i else SkipWord(s, i + 1)
  }

  /** What one call of `strtok` finds in the rest of the line: nothing, or
      the token `s[start..stop]`. */
  datatype Scan = Exhausted | Found(start: nat, stop: nat)

  /** `s[a..b]` is the first maximal run of non-delimiters of `s` at or
      after position `i`. */
  predicate RunAfter(s: string, i: nat, a: nat, b: nat) {
    && i <= a < b <= |s|
    && DelimsIn(s, i, a)
    && NoDelimsIn(s, a, b)
    && (b == |s| || IsDelim(s[b]))
  }

  /** `s[a..b]` is the first maximal run of non-delimiters of `s`. */
  predicate FirstRun(s: string, a: nat, b: nat) {
    RunAfter(s, 0, a, b)
  }

  /** `strtok` scanning from position `i`: delimiters are skipped, then the
      token runs to the next delimiter or the end. */
  function StrtokFrom(s: string, i: nat): (r: Scan)
    requires i <= |s|
    ensures r.Found? ==> i <= r.start < r.stop <= |s|
    decreases |s| - i
  {
    if i == |s| then Exhausted
    else if IsDelim(s[i]) then StrtokFrom(s, i + 1)
    else Found(i, SkipWord(s, i))
  }

  /** One call of `strtok(…, " \t\r\n\a")` on the remaining text `s`. */
  function Strtok(s: string): (r: Scan)
    ensures r.Found? ==> r.start < r.stop <= |s|
  {
    StrtokFrom(s, 0)
  }

  lemma {:induction false} StrtokFromFindsRun(s: string, i: nat)
    requires i <= |s|
    ensures StrtokFrom(s, i).Exhausted? <==> DelimsIn(s, i, |s|)
    ensures StrtokFrom(s, i).Found? ==>
      RunAfter(s, i, StrtokFrom(s, i).start, StrtokFrom(s, i).stop)
    decreases |s| - i
  {
    if i < |s| && IsDelim(s[i]) {
      StrtokFromFindsRun(s, i + 1);
    }
  }

  /** `strtok` finds nothing exactly when the rest of the line is all
      delimiters, and otherwise returns the first maximal run of
      non-delimiters. */
  lemma StrtokFindsFirstRun(s: string)
    ensures Strtok(s).Exhausted? <==> AllDelims(s)
    ensures Strtok(s).Found? ==> FirstRun(s, Strtok(s).start, Strtok(s).stop)
  {
    StrtokFromFindsRun(s, 0);
    assert DelimsIn(s, 0, |s|) <==> AllDelims(s);
  }

  /** Where the next `strtok` call resumes after a token ending at `stop`:
      `strtok` overwrites the delimiter that ended the token with NUL and
      continues just past it. */
  function Resume(s: string, stop: nat): (next: nat)
    requires stop <= |s|
    ensures stop <= next <= |s|
    ensures next == stop + 1 || next == |s| == stop
  {
    if stop < |s| then stop + 1 else stop
  }

  /** The tokens of a line, in left-to-right order, as the `strtok` loop of
      `lsh_split_line` collects them; there are never more tokens than
      characters. */
  function Tokenize(s: string): (r: seq<string>)
    ensures |r| <= |s|
    decreases |s|
  {
    match Strtok(s)
    case Exhausted => []
    case Found(a, b) => [s[a..b]] + Tokenize(s[Resume(s, b)..])
  }

  /** One step of `Tokenize`, stated on its own so that proofs can unfold it
      in a small context. */
  lemma TokenizeFound(s: string, a: nat, b: nat)
    requires Strtok(s) == Found(a, b)
    ensures Tokenize(s) == [s[a..b]] + Tokenize(s[Resume(s, b)..])
  {
  }

  /** Tokens are non-empty and separated by delimiters, so a line of `n`
      characters has at most `(n + 1) / 2` of them. */
  lemma {:induction false} TokenizeCount(s: string)
    ensures 2 * |Tokenize(s)| <= |s| + 1
    decreases |s|
  {
    match Strtok(s)
    case Exhausted =>
    case Found(a, b) =>
      TokenizeFound(s, a, b);
      TokenizeCount(s[Resume(s, b)..]);
  }

  /** When `strtok` finds nothing there are no tokens. */
  lemma TokenizeExhausted(s: string)
    requires Strtok(s).Exhausted?
    ensures Tokenize(s) == []
  {
  }

  /** Every token is non-empty and free of delimiters. */
  lemma {:induction false} TokenizeYieldsWords(s: string)
    ensures AllWords(Tokenize(s))
    decreases |s|
  {
    StrtokFindsFirstRun(s);
    match Strtok(s)
    case Exhausted =>
    case Found(a, b) =>
      TokenizeFound(s, a, b);
      TokenizeYieldsWords(s[Resume(s, b)..]);
      assert IsWord(s[a..b]);
  }

  /** A line yields no token exactly when it is empty or made only of
      delimiters. */
  lemma TokenizeEmptyIff(s: string)
    ensures Tokenize(s) == [] <==> AllDelims(s)
  {
    StrtokFindsFirstRun(s);
    match Strtok(s)
    case Exhausted =>
    case Found(a, b) =>
      TokenizeFound(s, a, b);
  }

  /** The ensures of `Strtok` pin its answer down: any token position that
      meets them is the one `Strtok` returns. */
  lemma StrtokUnique(s: string, a: nat, b: nat)
    requires FirstRun(s, a, b)
    ensures Strtok(s) == Found(a, b)
  {
    StrtokFindsFirstRun(s);
    var r := Strtok(s);
    assert !IsDelim(s[a]);
    assert r.Found?;
    assert !IsDelim(s[r.start]);
  }

  /** A first run stays the first run when delimiters are put in front. */
  lemma FirstRunShift(p: string, s: string, a: nat, b: nat)
    requires AllDelims(p)
    requires FirstRun(s, a, b)
    ensures FirstRun(p + s, |p| + a, |p| + b)
  {
    var ps := p + s;
    var k := |p|;
    forall i | 0 <= i < k + a ensures IsDelim(ps[i]) {
      if i >= k { assert ps[i] == s[i - k]; }
    }
    forall i | k + a <= i < k + b ensures !IsDelim(ps[i]) {
      assert ps[i] == s[i - k];
    }
    if k + b < |ps| { assert ps[k + b] == s[b]; }
  }

  /** A first run stays the first run when text is appended, provided the
      run already ended before the end or the appended text starts with a
      delimiter. */
  lemma FirstRunExtend(s: string, t: string, a: nat, b: nat)
    requires FirstRun(s, a, b)
    requires b < |s| || (|t| > 0 && IsDelim(t[0]))
    ensures FirstRun(s + t, a, b)
  {
    var st := s + t;
    forall i | 0 <= i < a ensures IsDelim(st[i]) {
      assert st[i] == s[i];
    }
    forall i | a <= i < b ensures !IsDelim(st[i]) {
      assert st[i] == s[i];
    }
  }

  /** A line of delimiters only has no tokens. */
  lemma TokenizeAllDelims(s: string)
    requires AllDelims(s)
    ensures Tokenize(s) == []
  {
    StrtokFindsFirstRun(s);
  }

  /** Slices of `p + s` that lie in `s`. */
  lemma SlicesOfPrefixed(p: string, s: string, a: nat, b: nat)
    requires a <= b <= |s|
    ensures (p + s)[|p| + a..|p| + b] == s[a..b]
    ensures (p + s)[Resume(p + s, |p| + b)..] == s[Resume(s, b)..]
  {
  }

  /** Two texts whose first `strtok` calls find the same token and leave the
      same remainder have the same tokens. */
  lemma TokenizeSameStep(x: string, y: string, xa: nat, xb: nat, ya: nat, yb: nat)
    requires Strtok(x) == Found(xa, xb) && Strtok(y) == Found(ya, yb)
    requires x[xa..xb] == y[ya..yb]
    requires x[Resume(x, xb)..] == y[Resume(y, yb)..]
    ensures Tokenize(x) == Tokenize(y)
  {
    TokenizeFound(x, xa, xb);
    TokenizeFound(y, ya, yb);
  }

  lemma TokenizeDelimPrefixFound(p: string, s: string, a: nat, b: nat)
    requires AllDelims(p)
    requires Strtok(s) == Found(a, b)
    ensures Tokenize(p + s) == Tokenize(s)
  {
    StrtokFindsFirstRun(s);
    FirstRunShift(p, s, a, b);
    StrtokUnique(p + s, |p| + a, |p| + b);
    SlicesOfPrefixed(p, s, a, b);
    TokenizeSameStep(p + s, s, |p| + a, |p| + b, a, b);
  }

  /** Leading delimiters never change the tokens. */
  lemma TokenizeDelimPrefix(p: string, s: string)
    requires AllDelims(p)
    ensures Tokenize(p + s) == Tokenize(s)
  {
    var ps := p + s;
    StrtokFindsFirstRun(s);
    match Strtok(s)
    case Exhausted =>
      assert AllDelims(ps) by {
        forall i | 0 <= i < |ps| ensures IsDelim(ps[i]) {
          if i >= |p| { assert ps[i] == s[i - |p|]; }
        }
      }
      TokenizeAllDelims(ps);
      TokenizeAllDelims(s);
    case Found(a, b) =>
      TokenizeDelimPrefixFound(p, s, a, b);
  }

  /** A single word is a single token. */
  lemma TokenizeWord(w: string)
    requires IsWord(w)
    ensures Tokenize(w) == [w]
  {
    StrtokUnique(w, 0, |w|);
    TokenizeFound(w, 0, |w|);
    assert w[0..|w|] == w;
    assert Tokenize(w[|w|..]) == [];
  }

  /** Tokenizing distributes over a delimiter: the tokens of `a + [d] + b`
      are those of `a` followed by those of `b`, so no token ever spans a
      delimiter and no delimiter run yields a token. */
  lemma {:induction false} TokenizeSplit(a: string, d: char, b: string)
    requires IsDelim(d)
    ensures Tokenize(a + [d] + b) == Tokenize(a) + Tokenize(b)
    decreases |a|, 1
  {
    StrtokFindsFirstRun(a);
    match Strtok(a)
    case Exhausted =>
      assert AllDelims(a + [d]) by {
        forall i | 0 <= i < |a + [d]| ensures IsDelim((a + [d])[i]) {
          if i < |a| { assert (a + [d])[i] == a[i]; }
        }
      }
      TokenizeDelimPrefix(a + [d], b);
      TokenizeAllDelims(a);
    case Found(x, y) =>
      TokenizeSplitFound(a, d, b, x, y);
  }

  /** Appending a delimiter and more text keeps the first token of `a`. */
  lemma StrtokAppendDelim(a: string, d: char, b: string, x: nat, y: nat)
    requires IsDelim(d)
    requires Strtok(a) == Found(x, y)
    ensures Strtok(a + [d] + b) == Found(x, y)
  {
    assert a + [d] + b == a + ([d] + b);
    StrtokFindsFirstRun(a);
    FirstRunExtend(a, [d] + b, x, y);
    StrtokUnique(a + [d] + b, x, y);
  }

  /** Slices of `a + [d] + b` that lie in, or start right after, `a`. */
  lemma SlicesOfSplit(a: string, d: char, b: string, x: nat, y: nat)
    requires x <= y <= |a|
    ensures (a + [d] + b)[x..y] == a[x..y]
    ensures y < |a| ==> (a + [d] + b)[y + 1..] == a[y + 1..] + [d] + b
    ensures y == |a| ==> (a + [d] + b)[y + 1..] == b
    ensures y == |a| ==> a[y..] == []
  {
  }

  /** `TokenizeSplit` when `a` has a first token `a[x..y]`. */
  lemma {:induction false} TokenizeSplitFound(a: string, d: char, b: string, x: nat, y: nat)
    requires IsDelim(d)
    requires Strtok(a) == Found(x, y)
    ensures Tokenize(a + [d] + b) == Tokenize(a) + Tokenize(b)
    decreases |a|, 0
  {
    var s, token := a + [d] + b, a[x..y];
    StrtokAppendDelim(a, d, b, x, y);
    SlicesOfSplit(a, d, b, x, y);
    TokenizeFound(s, x, y);
    TokenizeFound(a, x, y);
    if y < |a| {
      var after := a[y + 1..];
      TokenizeSplit(after, d, b);
      assert Tokenize(s) == [token] + (Tokenize(after) + Tokenize(b));
      assert Tokenize(a) == [token] + Tokenize(after);
    }
  }

  /** Removing the delimiters of a line keeps its first token and then
      whatever `strtok` leaves after it. */
  lemma RemoveDelimsAroundToken(s: string, a: nat, b: nat)
    requires FirstRun(s, a, b)
    ensures RemoveDelims(s) == s[a..b] + RemoveDelims(s[Resume(s, b)..])
  {
    var n := Resume(s, b);
    var pre, tok, gap, post := s[..a], s[a..b], s[b..n], s[n..];
    assert s == pre + tok + gap + post;
    assert AllDelims(pre);
    assert NoDelims(tok);
    assert AllDelims(gap) by {
      if n > b { assert gap == [s[b]]; }
    }
    RemoveDelimsAppend(pre + tok + gap, post);
    RemoveDelimsAppend(pre + tok, gap);
    RemoveDelimsAppend(pre, tok);
    RemoveDelimsOfAllDelims(pre);
    RemoveDelimsOfNoDelims(tok);
    RemoveDelimsOfAllDelims(gap);
  }

  /** Tokenizing keeps every non-delimiter character, in order, and nothing
      else: the tokens put together are the line with its delimiters removed. */
  lemma {:induction false} TokenizeKeepsContent(s: string)
    ensures Concat(Tokenize(s)) == RemoveDelims(s)
    decreases |s|
  {
    StrtokFindsFirstRun(s);
    match Strtok(s)
    case Exhausted =>
      RemoveDelimsOfAllDelims(s);
    case Found(a, b) =>
      var rest := s[Resume(s, b)..];
      TokenizeFound(s, a, b);
      TokenizeKeepsContent(rest);
      RemoveDelimsAroundToken(s, a, b);
      assert Concat([s[a..b]] + Tokenize(rest)) == s[a..b] + Concat(Tokenize(rest));
  }

  /** Words joined with single spaces tokenize back to the same words. */
  lemma {:induction false} TokenizeJoin(ws: seq<string>)
    requires AllWords(ws)
    ensures Tokenize(Join(ws)) == ws
    decreases |ws|
  {
    if ws == [] {
      TokenizeAllDelims([]);
    } else if |ws| == 1 {
      TokenizeWord(ws[0]);
    } else {
      var w, rest := ws[0], ws[1..];
      assert AllWords(rest) by {
        forall i | 0 <= i < |rest| ensures IsWord(rest[i]) {
          assert rest[i] == ws[i + 1];
        }
      }
      TokenizeJoin(rest);
      TokenizeWord(w);
      assert Join(ws) == w + [' '] + Join(rest);
      TokenizeSplit(w, ' ', Join(rest));
      assert ws == [w] + rest;
    }
  }

  /** Whitespace normalisation is idempotent: joining the tokens of a line
      with single spaces and tokenizing again gives the same tokens. */
  lemma TokenizeNormalize(s: string)
    ensures Tokenize(Join(Tokenize(s))) == Tokenize(s)
  {
    TokenizeYieldsWords(s);
    TokenizeJoin(Tokenize(s));
  }

  // ---------------------------------------------------------------------
  // The growable token array of `lsh_split_line`

  /** Initial capacity of the token array and the amount it grows by. */
  const TokBufSize: nat := 64

  /** One slot of the `char **` token array. */
  datatype Slot = Null | Ptr(token: string)

  /** The argument vector a NULL-terminated array denotes: the tokens up to
      the first NULL. */
  function Argv(slots: seq<Slot>): seq<string>
    decreases |slots|
  {
    if slots == [] || slots[0].Null? then [] else [slots[0].token] + Argv(slots[1..])
  }

  /** An array holding `ws` in its first slots and NULL right after them
      denotes exactly `ws`. */
  lemma {:induction false} ArgvOfTerminated(slots: seq<Slot>, ws: seq<string>)
    requires |ws| < |slots|
    requires forall i :: 0 <= i < |ws| ==> slots[i] == Ptr(ws[i])
    requires slots[|ws|] == Null
    ensures Argv(slots) == ws
    decreases |ws|
  {
    if ws != [] {
      ArgvOfTerminated(slots[1..], ws[1..]);
      assert ws == [ws[0]] + ws[1..];
    }
  }

  /** `lsh_split_line`: the token array starts with 64 slots and grows by 64
      whenever the slot after the last stored token would be out of range, so
      the closing NULL is always written inside the array. Fresh slots are
      uninitialised in the source and NULL here. */
  method SplitLine(line: string) returns (tokens: seq<Slot>, position: nat)
    ensures |tokens| - TokBufSize <= position < |tokens|
    ensures |tokens| % TokBufSize == 0
    ensures tokens[position] == Null
    ensures position == |Tokenize(line)|
    ensures forall i :: 0 <= i < position ==> tokens[i] == Ptr(Tokenize(line)[i])
    ensures Argv(tokens) == Tokenize(line)
  {
    var bufsize: nat := TokBufSize;
    tokens := seq(bufsize, _ => Null);
    position := 0;
    var rest := line;
    ghost var produced: seq<string> := [];
    var scan := Strtok(rest);
    while scan.Found?
      invariant |tokens| == bufsize
      invariant bufsize - TokBufSize <= position < bufsize
      invariant bufsize % TokBufSize == 0
      invariant scan == Strtok(rest)
      invariant |produced| == position
      invariant produced + Tokenize(rest) == Tokenize(line)
      invariant forall i :: 0 <= i < position ==> tokens[i] == Ptr(produced[i])
      decreases |rest|
    {
      var token := rest[scan.start..scan.stop];
      var next := rest[Resume(rest, scan.stop)..];
      TokenizeFound(rest, scan.start, scan.stop);
      assert produced + Tokenize(rest) == (produced + [token]) + Tokenize(next);
      tokens := tokens[position := Ptr(token)];
      produced := produced + [token];
      position := position + 1;
      if position >= bufsize {
        bufsize := bufsize + TokBufSize;
        tokens := tokens + seq(TokBufSize, _ => Null);
      }
      rest := next;
      scan := Strtok(rest);
    }
    TokenizeExhausted(rest);
    assert produced == Tokenize(line);
    tokens := tokens[position := Null];
    ArgvOfTerminated(tokens, produced);
  }
}
