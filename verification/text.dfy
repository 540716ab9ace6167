/** Characters and strings as the shell sees them: the delimiter set of the
    tokenizer and the small string operations the properties are stated with. */
module Text {

  /** The bell character '\a' (code 7). */
  const Bell: char := '\U{7}'

  /** The token delimiters of the shell, `" \t\r\n\a"`, in the order the
      shell lists them. */
  const Delimiters: seq<char> := [' ', '\t', '\r', '\n', Bell]

  predicate IsDelim(c: char) {
    c in Delimiters
  }

  /** The delimiters are exactly space, tab, carriage return, newline and
      bell. */
  lemma IsDelimMeansListed(c: char)
    ensures IsDelim(c) <==> c == ' ' || c == '\t' || c == '\r' || c == '\n' || c == Bell
  {
  }

  /** No character of `s` is a delimiter. */
  predicate NoDelims(s: string) {
    forall i {:trigger IsDelim(s[i])} :: 0 <= i < |s| ==> !IsDelim(s[i])
  }

  /** Every character of `s` is a delimiter (vacuously true of ""). */
  predicate AllDelims(s: string) {
    forall i {:trigger IsDelim(s[i])} :: 0 <= i < |s| ==> IsDelim(s[i])
  }

  /** Every character of `s[lo..hi]` is a delimiter. */
  predicate DelimsIn(s: string, lo: nat, hi: nat)
    requires lo <= hi <= |s|
  {
    forall i {:trigger IsDelim(s[i])} :: lo <= i < hi ==> IsDelim(s[i])
  }

  /** No character of `s[lo..hi]` is a delimiter. */
  predicate NoDelimsIn(s: string, lo: nat, hi: nat)
    requires lo <= hi <= |s|
  {
    forall i {:trigger IsDelim(s[i])} :: lo <= i < hi ==> !IsDelim(s[i])
  }

  /** A word is what a token can be: non-empty and delimiter-free. */
  predicate IsWord(s: string) {
    |s| > 0 && NoDelims(s)
  }

  predicate AllWords(ws: seq<string>) {
    forall i :: 0 <= i < |ws| ==> IsWord(ws[i])
  }

  /** The parts written one after the other. */
  function Concat(parts: seq<string>): string {
    if parts == [] then [] else parts[0] + Concat(parts[1..])
  }

  /** The parts separated by single spaces. */
  function Join(parts: seq<string>): string {
    if parts == [] then []
    else if |parts| == 1 then parts[0]
    else parts[0] + " " + Join(parts[1..])
  }

  /** The non-delimiter characters of `s`, in order. */
  function RemoveDelims(s: string): (r: string)
    ensures NoDelims(r)
    ensures |r| <= |s|
  {
    if s == [] then []
    else (if IsDelim(s[0]) then [] else [s[0]]) + RemoveDelims(s[1..])
  }

  lemma {:induction false} RemoveDelimsAppend(a: string, b: string)
    ensures RemoveDelims(a + b) == RemoveDelims(a) + RemoveDelims(b)
    decreases |a|
  {
    if a == [] {
      assert a + b == b;
    } else {
      assert (a + b)[1..] == a[1..] + b;
      RemoveDelimsAppend(a[1..], b);
    }
  }

  lemma {:induction false} RemoveDelimsOfAllDelims(s: string)
    requires AllDelims(s)
    ensures RemoveDelims(s) == []
    decreases |s|
  {
    if s != [] {
      RemoveDelimsOfAllDelims(s[1..]);
    }
  }

  lemma {:induction false} RemoveDelimsOfNoDelims(s: string)
    requires NoDelims(s)
    ensures RemoveDelims(s) == s
    decreases |s|
  {
    if s != [] {
      RemoveDelimsOfNoDelims(s[1..]);
      assert s == [s[0]] + s[1..];
    }
  }
}
