/**
 * A model of the C library's strtok as the shell uses it: the tokens of a
 * string are its maximal runs of non-delimiter characters, and strtok's
 * saved pointer is a position into the string.
 */
module Tokenizer {
  import opened Wrappers

  /** The splitters of parse_command: space and tab. */
  const Splitters: set<char> := {' ', '\t'}
  /** The separator of the PATH walk. */
  const PathSeparators: set<char> := {':'}
  /** The separators of the unique builtin's word split. */
  const WordSeparators: set<char> := {' ', '\n'}

  /** Whether w is something strtok can return: non-empty, no delimiter inside. */
  predicate IsToken(w: string, delims: set<char>)
  {
    |w| > 0 && forall i :: 0 <= i < |w| ==> w[i] !in delims
  }

  /** Length of the leading run of non-delimiters of s. */
  function RunLength(s: string, delims: set<char>): (n: nat)
    ensures n <= |s|
  {
    if s == [] || s[0] in delims then 0 else 1 + RunLength(s[1..], delims)
  }

  /** The tokens that repeated strtok calls return from s, in order: each non-empty and free of delimiters. */
  function Tokens(s: string, delims: set<char>): (r: seq<string>)
    ensures forall w | w in r :: IsToken(w, delims)
    decreases |s|
  {
    if s == [] then []
    else if s[0] in delims then Tokens(s[1..], delims)
    else
      var n := RunLength(s, delims);
      RunLengthShape(s, delims);
      [s[..n]] + Tokens(s[n..], delims)
  }

  /** The words joined by a single separator character. */
  function Join(words: seq<string>, sep: char): string
  {
    if words == [] then []
    else if |words| == 1 then words[0]
    else words[0] + [sep] + Join(words[1..], sep)
  }

  /** The leading run holds no delimiter and stops at one or at the end. */
  lemma {:induction false} RunLengthShape(s: string, delims: set<char>)
    ensures forall i :: 0 <= i < RunLength(s, delims) ==> s[i] !in delims
    ensures RunLength(s, delims) < |s| ==> s[RunLength(s, delims)] in delims
  {
    if s != [] && s[0] !in delims {
      RunLengthShape(s[1..], delims);
    }
  }

  /** A run of delimiters in front of a string yields no token. */
  lemma {:induction false} SkipDelimiters(s: string, i: nat, k: nat, delims: set<char>)
    requires i <= k <= |s|
    requires forall j :: i <= j < k ==> s[j] in delims
    ensures Tokens(s[i..], delims) == Tokens(s[k..], delims)
    decreases k - i
  {
    if i < k {
      assert s[i..][1..] == s[i + 1..];
      SkipDelimiters(s, i + 1, k, delims);
    }
  }

  /** Delimiters after the end of a string yield no token. */
  lemma {:induction false} TrailingDelimiters(x: string, y: string, delims: set<char>)
    requires forall j :: 0 <= j < |y| ==> y[j] in delims
    ensures Tokens(x + y, delims) == Tokens(x, delims)
    decreases |x|
  {
    if x == [] {
      assert x + y == y && y[0..] == y;
      SkipDelimiters(y, 0, |y|, delims);
    } else if x[0] in delims {
      assert (x + y)[1..] == x[1..] + y;
      TrailingDelimiters(x[1..], y, delims);
    } else {
      var n := RunLength(x, delims);
      RunLengthShape(x, delims);
      assert forall j :: 0 <= j < n ==> (x + y)[j] == x[j];
      assert n < |x + y| ==> (x + y)[n] in delims by {
        if n < |x| { assert (x + y)[n] == x[n]; } else if n < |x + y| { assert (x + y)[n] == y[0]; }
      }
      RunLengthIs(x + y, n, delims);
      assert (x + y)[..n] == x[..n];
      assert (x + y)[n..] == x[n..] + y;
      TrailingDelimiters(x[n..], y, delims);
    }
  }

  /** The leading run of s has exactly length n when n is where it stops. */
  lemma {:induction false} RunLengthIs(s: string, n: nat, delims: set<char>)
    requires n <= |s|
    requires forall i :: 0 <= i < n ==> s[i] !in delims
    requires n < |s| ==> s[n] in delims
    ensures RunLength(s, delims) == n
  {
    if n > 0 {
      RunLengthIs(s[1..], n - 1, delims);
    }
  }

  /** Round trip: joining tokens with a delimiter and splitting again gives them back. */
  lemma {:induction false} TokensOfJoin(words: seq<string>, sep: char, delims: set<char>)
    requires sep in delims
    requires forall w | w in words :: IsToken(w, delims)
    ensures Tokens(Join(words, sep), delims) == words
  {
    if words == [] {
    } else {
      var w := words[0];
      var s := Join(words, sep);
      var rest := if |words| == 1 then [] else [sep] + Join(words[1..], sep);
      assert s == w + rest;
      assert w in words;
      assert forall i :: 0 <= i < |w| ==> s[i] == w[i];
      RunLengthIs(s, |w|, delims);
      assert s[..|w|] == w;
      assert s[0] !in delims;
      assert Tokens(s, delims) == [w] + Tokens(s[|w|..], delims);
      if |words| == 1 {
        assert s[|w|..] == [];
      } else {
        assert s[|w|..] == [sep] + Join(words[1..], sep);
        assert s[|w|..][1..] == Join(words[1..], sep);
        assert forall v | v in words[1..] :: v in words;
        TokensOfJoin(words[1..], sep, delims);
      }
    }
  }

  /**
   * Delimiters from pos to i, then a maximal run from i to j: the tokens
   * from pos are that run followed by the tokens after the delimiter that
   * ends it.
   */
  lemma TokenAt(s: string, pos: nat, i: nat, j: nat, delims: set<char>)
    requires pos <= i < j <= |s|
    requires forall k :: pos <= k < i ==> s[k] in delims
    requires forall k :: i <= k < j ==> s[k] !in delims
    requires j < |s| ==> s[j] in delims
    ensures Tokens(s[pos..], delims) ==
      [s[i..j]] + Tokens(s[if j < |s| then j + 1 else j..], delims)
  {
    SkipDelimiters(s, pos, i, delims);
    var t := s[i..];
    RunLengthIs(t, j - i, delims);
    assert t[..j - i] == s[i..j];
    assert t[j - i..] == s[j..];
    SkipDelimiters(s, j, if j < |s| then j + 1 else j, delims);
  }

  /** The token that strtok finds: its bounds in the string. */
  datatype Span = Span(start: nat, end: nat)

  /**
   * One strtok call resuming at pos: skip delimiters, then take the run that
   * follows, ending it at the next delimiter; next is where the following
   * call resumes (just past that delimiter, or the end of the string).
   */
  method NextToken(s: string, pos: nat, delims: set<char>) returns (span: Option<Span>, next: nat)
    requires pos <= |s|
    ensures next <= |s|
    ensures span.None? ==> Tokens(s[pos..], delims) == [] && next == |s|
    ensures span.Some? ==>
      && pos <= span.value.start < span.value.end <= |s|
      && next == (if span.value.end < |s| then span.value.end + 1 else span.value.end)
      && (span.value.end < |s| ==> s[span.value.end] in delims)
      && Tokens(s[pos..], delims) == [s[span.value.start..span.value.end]] + Tokens(s[next..], delims)
  {
    var i := pos;
    while i < |s| && s[i] in delims
      invariant pos <= i <= |s|
      invariant forall j :: pos <= j < i ==> s[j] in delims
    {
      i := i + 1;
    }
    if i == |s| {
      SkipDelimiters(s, pos, i, delims);
      return None, |s|;
    }
    var j := i + 1;
    while j < |s| && s[j] !in delims
      invariant i < j <= |s|
      invariant forall k :: i <= k < j ==> s[k] !in delims
    {
      j := j + 1;
    }
    TokenAt(s, pos, i, j, delims);
    span := Some(Span(i, j));
    next := if j < |s| then j + 1 else j;
  }
}
