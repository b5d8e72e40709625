/**
 * The unique builtin: rewrite a file keeping the first occurrence of each
 * word. The words already written are kept in unique.txt; with -f that
 * list spans the whole file, with -l it is emptied after every line.
 */
module Unique {
  import opened Wrappers
  import opened Tokenizer
  import opened Sequences

  /** `-l`: a word is repeated only within its line. `-f`: within the whole file. */
  datatype Scope = PerLine | PerFile

  /** isDuplicate: whether word is one of the lines of unique.txt. */
  method IsDuplicate(seen: seq<string>, word: string) returns (dup: bool)
    ensures dup <==> word in seen
  {
    var i := 0;
    while i < |seen|
      invariant 0 <= i <= |seen|
      invariant word !in seen[..i]
    {
      if seen[i] == word {
        return true;
      }
      assert seen[..i + 1] == seen[..i] + [seen[i]];
      i := i + 1;
    }
    assert seen[..i] == seen;
    return false;
  }

  /** The words of one line that are written, given the words written before them: words of the line not seen before. */
  function Fresh(seen: seq<string>, words: seq<string>): (r: seq<string>)
    ensures |r| <= |words|
    ensures forall w | w in r :: w in words && w !in seen
    decreases |words|
  {
    if words == [] then []
    else if words[0] in seen then Fresh(seen, words[1..])
    else [words[0]] + Fresh(seen + [words[0]], words[1..])
  }

  /** The lines written to temp.txt, one for each line of the file, each a sequence of its words. */
  function Lines(lines: seq<string>, scope: Scope, seen: seq<string>): (r: seq<seq<string>>)
    ensures |r| == |lines|
    decreases |lines|
  {
    if lines == [] then []
    else
      var kept := Fresh(seen, Tokens(lines[0], WordSeparators));
      [kept] + Lines(lines[1..], scope, if scope == PerLine then [] else seen + kept)
  }

  /**
   * The fgets loop of unique: split each line with strtok on space and
   * newline, write each word isDuplicate does not find and add it to
   * unique.txt, and with -l empty unique.txt at the end of the line.
   */
  method UniqueWords(lines: seq<string>, scope: Scope) returns (out: seq<seq<string>>)
    ensures out == Lines(lines, scope, [])
  {
    out := [];
    var seen: seq<string> := [];
    var k := 0;
    while k < |lines|
      invariant 0 <= k <= |lines|
      invariant out + Lines(lines[k..], scope, seen) == Lines(lines, scope, [])
    {
      var kept;
      kept, seen := UniqueLine(lines[k], seen);
      assert lines[k..][1..] == lines[k + 1..];
      if scope == PerLine {
        seen := [];
      }
      assert out + [kept] + Lines(lines[k + 1..], scope, seen) == Lines(lines, scope, []);
      out := out + [kept];
      k := k + 1;
    }
  }

  /** One line: the inner strtok loop. */
  method UniqueLine(line: string, seen: seq<string>) returns (kept: seq<string>, seen': seq<string>)
    ensures kept == Fresh(seen, Tokens(line, WordSeparators))
    ensures seen' == seen + kept
  {
    kept := [];
    seen' := seen;
    var pos := 0;
    assert line[0..] == line;
    while true
      invariant pos <= |line|
      invariant seen' == seen + kept
      invariant kept + Fresh(seen', Tokens(line[pos..], WordSeparators)) == Fresh(seen, Tokens(line, WordSeparators))
      decreases |line| - pos
    {
      var span, next := NextToken(line, pos, WordSeparators);
      if span.None? {
        assert kept == Fresh(seen, Tokens(line, WordSeparators));
        return;
      }
      var token := line[span.value.start..span.value.end];
      FreshStep(seen', token, Tokens(line[next..], WordSeparators));
      var dup := IsDuplicate(seen', token);
      if !dup {
        assert kept + [token] + Fresh(seen' + [token], Tokens(line[next..], WordSeparators)) ==
          kept + ([token] + Fresh(seen' + [token], Tokens(line[next..], WordSeparators)));
        kept := kept + [token];
        seen' := seen' + [token];
      }
      pos := next;
    }
  }

  lemma FreshStep(seen: seq<string>, word: string, rest: seq<string>)
    ensures Fresh(seen, [word] + rest) ==
      if word in seen then Fresh(seen, rest) else [word] + Fresh(seen + [word], rest)
  {
    assert ([word] + rest)[1..] == rest;
  }

  /**
   * The words written for a line: none twice, none written before, in
   * their order on the line, and every word of the line either written
   * before or written here.
   */
  lemma {:induction false} FreshExact(seen: seq<string>, words: seq<string>)
    ensures NoDuplicates(Fresh(seen, words))
    ensures Subsequence(Fresh(seen, words), words)
    ensures forall w | w in words :: w in seen || w in Fresh(seen, words)
    decreases |words|
  {
    if words != [] {
      var w := words[0];
      var rest := words[1..];
      assert forall x | x in words :: x == w || x in rest;
      if w in seen {
        FreshExact(seen, rest);
      } else {
        var tail := Fresh(seen + [w], rest);
        FreshExact(seen + [w], rest);
        assert w !in tail;
        NoDuplicatesCons(w, tail);
        assert ([w] + tail)[1..] == tail;
        assert ([w] + tail)[0] == w;
      }
    }
  }

  /** With -l each line is cleaned on its own, as though it were the whole file. */
  lemma {:induction false} PerLineIndependent(lines: seq<string>, k: nat)
    requires k < |lines|
    ensures Lines(lines, PerLine, [])[k] == Fresh([], Tokens(lines[k], WordSeparators))
  {
    if k > 0 {
      PerLineIndependent(lines[1..], k - 1);
    }
  }

  /**
   * With -f no word is written twice in the whole file, and every word of
   * the file is written once (or was in unique.txt before).
   */
  lemma {:induction false} PerFileUnique(lines: seq<string>, seen: seq<string>)
    requires NoDuplicates(seen)
    ensures NoDuplicates(seen + Flatten(Lines(lines, PerFile, seen)))
    ensures forall k, w | 0 <= k < |lines| && w in Tokens(lines[k], WordSeparators) ::
      w in seen + Flatten(Lines(lines, PerFile, seen))
    decreases |lines|
  {
    if lines != [] {
      var kept := Fresh(seen, Tokens(lines[0], WordSeparators));
      var rest := Lines(lines[1..], PerFile, seen + kept);
      FreshExact(seen, Tokens(lines[0], WordSeparators));
      NoDuplicatesAppend(seen, kept);
      PerFileUnique(lines[1..], seen + kept);
      assert Flatten(Lines(lines, PerFile, seen)) == kept + Flatten(rest);
      assert seen + Flatten(Lines(lines, PerFile, seen)) == (seen + kept) + Flatten(rest);
      forall k, w | 0 <= k < |lines| && w in Tokens(lines[k], WordSeparators)
        ensures w in seen + Flatten(Lines(lines, PerFile, seen))
      {
        if k > 0 {
          assert lines[k] == lines[1..][k - 1];
        }
      }
    }
  }
}
