/** String helpers: prefix and suffix tests, the space-prefixed joining the
    command builder uses, and `Words`, the blank-separated splitting a POSIX
    shell applies to an unquoted command line. */
module Text {

  predicate StartsWith(s: string, prefix: string) {
    |prefix| <= |s| && s[..|prefix|] == prefix
  }

  predicate EndsWith(s: string, suffix: string) {
    |suffix| <= |s| && s[|s| - |suffix|..] == suffix
  }

  /** A suffix of the right-hand part is a suffix of the whole. */
  lemma EndsWithAppend(a: string, b: string, suffix: string)
    requires EndsWith(b, suffix)
    ensures EndsWith(a + b, suffix)
  {
    assert (a + b)[|a + b| - |suffix|..] == b[|b| - |suffix|..];
  }

  /** The field separators of a shell's default word splitting. Inside the
      text of `sh -c` an unquoted newline ends the command rather than
      separating two words; that only matters for a runner path holding a
      newline, since no `IsWord` contains one. */
  predicate IsBlank(c: char) {
    c == ' ' || c == '\t' || c == '\n'
  }

  /** A non-empty string without blanks: one shell word. */
  predicate IsWord(w: string) {
    |w| > 0 && forall i :: 0 <= i < |w| ==> !IsBlank(w[i])
  }

  predicate AllWords(ws: seq<string>) {
    forall i :: 0 <= i < |ws| ==> IsWord(ws[i])
  }

  /** Each element preceded by one space, concatenated in order: the fold
      that renders an argument list onto a command line. */
  function SpacePrefixed(xs: seq<string>): (s: string)
    ensures s == [] <==> xs == []
    ensures s != [] ==> s[0] == ' '
  {
    if xs == [] then []
    else " " + xs[0] + SpacePrefixed(xs[1..])
  }

  /** Length of the leading run of non-blank characters of `s`. */
  function WordEnd(s: string): (k: nat)
    ensures k <= |s|
    ensures forall i :: 0 <= i < k ==> !IsBlank(s[i])
    ensures k < |s| ==> IsBlank(s[k])
  {
    if s == [] || IsBlank(s[0]) then 0 else 1 + WordEnd(s[1..])
  }

  /** The words of `s`: its maximal runs of non-blank characters, in order. */
  function Words(s: string): (ws: seq<string>)
    ensures AllWords(ws)
    decreases |s|
  {
    if s == [] then []
    else if IsBlank(s[0]) then Words(s[1..])
    else
      var k := WordEnd(s);
      [s[..k]] + Words(s[k..])
  }

  lemma {:induction false} WordEndAppend(a: string, b: string)
    ensures WordEnd(a) < |a| ==> WordEnd(a + b) == WordEnd(a)
    ensures WordEnd(a) == |a| ==> WordEnd(a + b) == |a| + WordEnd(b)
  {
    if a == [] {
      assert a + b == b;
    } else if IsBlank(a[0]) {
    } else {
      assert (a + b)[1..] == a[1..] + b;
      WordEndAppend(a[1..], b);
    }
  }

  /** Splitting distributes over a concatenation whose seam falls on a blank
      (or at either end). */
  lemma {:induction false} WordsAppend(a: string, b: string)
    requires a == [] || b == [] || IsBlank(a[|a| - 1]) || IsBlank(b[0])
    ensures Words(a + b) == Words(a) + Words(b)
    decreases |a|
  {
    if a == [] {
      assert a + b == b;
    } else if b == [] {
      assert a + b == a;
    } else if IsBlank(a[0]) {
      assert (a + b)[1..] == a[1..] + b;
      WordsAppend(a[1..], b);
    } else {
      var k := WordEnd(a);
      WordEndAppend(a, b);
      if k < |a| {
        assert (a + b)[..k] == a[..k];
        assert (a + b)[k..] == a[k..] + b;
        WordsAppend(a[k..], b);
      } else {
        assert !IsBlank(a[|a| - 1]);
        assert WordEnd(b) == 0;
        assert (a + b)[..k] == a;
        assert (a + b)[k..] == b;
        assert Words(a + b) == [a] + Words(b);
        assert a[..k] == a && a[k..] == [];
        assert Words(a) == [a];
      }
    }
  }

  /** A single word splits into itself. */
  lemma WordsOfWord(w: string)
    requires IsWord(w)
    ensures Words(w) == [w]
  {
    assert WordEnd(w) == |w| by {
      WordEndOfWord(w);
    }
    assert w[..|w|] == w;
    assert w[|w|..] == [];
  }

  lemma {:induction false} WordEndOfWord(w: string)
    requires forall i :: 0 <= i < |w| ==> !IsBlank(w[i])
    ensures WordEnd(w) == |w|
  {
  }

  /** A word with a single blank on its left splits into that word. */
  lemma WordsOfPaddedWord(w: string)
    requires IsWord(w)
    ensures Words(" " + w) == [w]
    ensures Words(" " + w + " ") == [w]
  {
    WordsOfWord(w);
    WordsAppend(" ", w);
    assert Words(" ") == [];
    WordsAppend(" " + w, " ");
  }

  /** Round trip: rendering a list of words and splitting the line again
      gives back the list. */
  lemma {:induction false} WordsOfSpacePrefixed(xs: seq<string>)
    requires AllWords(xs)
    ensures Words(SpacePrefixed(xs)) == xs
  {
    if xs != [] {
      var rest := SpacePrefixed(xs[1..]);
      WordsOfSpacePrefixed(xs[1..]);
      WordsOfPaddedWord(xs[0]);
      WordsAppend(" " + xs[0], rest);
    }
  }
}
