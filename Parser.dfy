/**
 * parse_command: trim the line, read the auto-complete and background
 * markers from its last character, then walk its strtok tokens, sorting
 * each into a pipe, a background marker, a redirect or an argument.
 */
module Parser {
  import opened Wrappers
  import opened Tokenizer
  import opened CommandModel

  /** Size of temp_buf, into which every token after the name is copied. */
  const TempBufferSize := 1024

  /** Drop leading spaces and tabs: a suffix of s that starts with neither. */
  function TrimLeft(s: string): (r: string)
    ensures |r| <= |s|
    ensures r == [] || r[0] !in Splitters
  {
    if s != [] && s[0] in Splitters then TrimLeft(s[1..]) else s
  }

  /** Drop trailing spaces and tabs: a prefix of s that ends with neither. */
  function TrimRight(s: string): (r: string)
    ensures |r| <= |s| && r == s[..|r|]
    ensures r == [] || r[|r| - 1] !in Splitters
  {
    if s != [] && s[|s| - 1] in Splitters then TrimRight(s[..|s| - 1]) else s
  }

  /** Both trims: no space or tab at either end. */
  function Trim(s: string): (r: string)
    ensures |r| <= |s|
    ensures r == [] || (r[0] !in Splitters && r[|r| - 1] !in Splitters)
  {
    var l := TrimLeft(s);
    assert TrimRight(l) == l[..|TrimRight(l)|];
    TrimRight(l)
  }

  predicate EndsWith(s: string, c: char)
  {
    |s| > 0 && s[|s| - 1] == c
  }

  /** The redirect slots, in the order of redirects[0..3]. */
  datatype RedirectKind = Input | Output | Append

  /** Which slot a token fills: `<` input, `>>` append, any other `>` output. */
  function RedirectOf(tok: string): Option<RedirectKind>
  {
    if |tok| > 0 && tok[0] == '<' then Some(Input)
    else if |tok| > 0 && tok[0] == '>' then
      (if |tok| > 1 && tok[1] == '>' then Some(Append) else Some(Output))
    else None
  }

  /** The file name a redirect token carries: what follows its one or two marker characters. */
  function RedirectTarget(tok: string): (r: string)
    requires RedirectOf(tok).Some?
    ensures RedirectOf(tok) == Some(Append) ==> tok == ">>" + r
    ensures RedirectOf(tok) == Some(Input) ==> tok == "<" + r
    ensures RedirectOf(tok) == Some(Output) ==> tok == ">" + r
  {
    if RedirectOf(tok) == Some(Append) then tok[2..] else tok[1..]
  }

  /** Longer than two characters and wrapped in one matching pair of quotes. */
  predicate IsQuoted(tok: string)
  {
    |tok| > 2 && ((tok[0] == '"' && tok[|tok| - 1] == '"') || (tok[0] == '\'' && tok[|tok| - 1] == '\''))
  }

  function Unquote(tok: string): string
  {
    if IsQuoted(tok) then tok[1..|tok| - 1] else tok
  }

  /** A token of a stage that is stored as an argument. */
  predicate IsArgument(tok: string)
  {
    tok != "&" && RedirectOf(tok).None?
  }

  /** The arguments the tokens of one stage contribute, in order. */
  function ArgsOf(toks: seq<string>): seq<string>
  {
    if toks == [] then []
    else
      var last := toks[|toks| - 1];
      ArgsOf(toks[..|toks| - 1]) + (if IsArgument(last) then [Unquote(last)] else [])
  }

  /** The target of the last redirect of the given kind among the tokens of one stage. */
  function LastRedirect(toks: seq<string>, kind: RedirectKind): Option<string>
  {
    if toks == [] then None
    else
      var last := toks[|toks| - 1];
      if RedirectOf(last) == Some(kind) then Some(RedirectTarget(last))
      else LastRedirect(toks[..|toks| - 1], kind)
  }

  /** Position of the first `|` at or after from, or the end. */
  function FindPipe(toks: seq<string>, from: nat): (e: nat)
    requires from <= |toks|
    ensures from <= e <= |toks|
    ensures e < |toks| ==> toks[e] == "|"
    ensures forall j :: from <= j < e ==> toks[j] != "|"
    decreases |toks| - from
  {
    if from == |toks| || toks[from] == "|" then from else FindPipe(toks, from + 1)
  }

  /** Where the first stage ends: its name is never taken for a pipe. */
  function StageEnd(toks: seq<string>): nat
    requires toks != []
  {
    FindPipe(toks, 1)
  }

  /**
   * Every `|` that ends a stage has a token after it. A `|` with nothing
   * after it makes the recursive call read past the end of the line.
   */
  predicate PipesFollowed(toks: seq<string>)
    decreases |toks|
  {
    toks != [] &&
    var e := StageEnd(toks);
    e < |toks| ==> e + 1 < |toks| && PipesFollowed(toks[e + 1..])
  }

  /**
   * The pipeline a token sequence describes: named by its first token,
   * carrying both markers, with a next stage exactly when a `|` follows the
   * name.
   */
  function Stage(toks: seq<string>, background: bool, autoComplete: bool): (r: Command)
    requires PipesFollowed(toks)
    ensures r.name == toks[0] && r.background == background && r.autoComplete == autoComplete
    ensures r.next.Some? <==> "|" in toks[1..]
    decreases |toks|
  {
    PipeAfterName(toks);
    var e := StageEnd(toks);
    var own := toks[1..e];
    Command(toks[0], ArgsOf(own),
      LastRedirect(own, Input), LastRedirect(own, Output), LastRedirect(own, Append),
      background, autoComplete,
      if e < |toks| then Some(Stage(toks[e + 1..], background, autoComplete)) else None)
  }

  /** The first stage ends before the end of the tokens exactly when a `|` follows the name. */
  lemma PipeAfterName(toks: seq<string>)
    requires toks != []
    ensures StageEnd(toks) < |toks| <==> "|" in toks[1..]
  {
    var e := StageEnd(toks);
    if e < |toks| {
      assert toks[1..][e - 1] == toks[e];
    }
    if "|" in toks[1..] {
      var j :| 0 <= j < |toks[1..]| && toks[1..][j] == "|";
      assert toks[j + 1] == "|";
    }
  }

  /** Every token fits temp_buf with its terminating NUL. */
  predicate Fits(toks: seq<string>)
  {
    forall tok | tok in toks :: |tok| < TempBufferSize
  }

  /**
   * Every token after the name of each stage fits temp_buf. The names are
   * not bounded: each is copied into a buffer allocated to its own length.
   */
  predicate StageFits(toks: seq<string>)
    requires PipesFollowed(toks)
    decreases |toks|
  {
    var e := StageEnd(toks);
    Fits(toks[1..e]) && (e < |toks| ==> StageFits(toks[e + 1..]))
  }

  /**
   * The lines parse_command handles without undefined behaviour, given a
   * name: every token after a stage name fits temp_buf and no pipe ends
   * the line.
   */
  predicate ParseDefined(line: string)
  {
    var toks := Tokens(Trim(line), Splitters);
    toks == [] || (PipesFollowed(toks) && StageFits(toks))
  }

  /**
   * What parse_command builds from a line: the markers come from the last
   * character of the trimmed line, and only a blank line gives no name.
   */
  function Parse(line: string): (r: Command)
    requires ParseDefined(line)
    ensures r.background <==> EndsWith(Trim(line), '&')
    ensures r.autoComplete <==> EndsWith(Trim(line), '?')
    ensures r.name == "" <==> Tokens(Trim(line), Splitters) == []
  {
    var t := Trim(line);
    var toks := Tokens(t, Splitters);
    assert toks != [] ==> toks[0] in toks;
    if toks == [] then Command("", [], None, None, None, EndsWith(t, '&'), EndsWith(t, '?'), None)
    else Stage(toks, EndsWith(t, '&'), EndsWith(t, '?'))
  }

  /**
   * The trimmed line is the slice of the line from a, past only spaces and
   * tabs, to a + |Trim(s)|, followed by only spaces and tabs; so it has the
   * line's tokens.
   */
  lemma TrimShape(s: string)
    ensures var r := Trim(s); var a := |s| - |TrimLeft(s)|;
      && a + |r| <= |s| && r == s[a..a + |r|]
      && (forall i :: 0 <= i < a ==> s[i] in Splitters)
      && (forall i :: a + |r| <= i < |s| ==> s[i] in Splitters)
    ensures Tokens(Trim(s), Splitters) == Tokens(s, Splitters)
  {
    var a := TrimLeftShape(s);
    var l := TrimLeft(s);
    var b := TrimRightShape(l);
    assert l == s[a..] && Trim(s) == l[..b] == s[a..a + b];
    forall i | a + b <= i < |s| ensures s[i] in Splitters {
      assert s[i] == l[i - a];
    }
    BlanksAround(s, a, a + b);
  }

  /** A slice with only spaces and tabs around it has the tokens of the whole. */
  lemma BlanksAround(s: string, a: nat, b: nat)
    requires a <= b <= |s|
    requires forall i :: 0 <= i < a ==> s[i] in Splitters
    requires forall i :: b <= i < |s| ==> s[i] in Splitters
    ensures Tokens(s[a..b], Splitters) == Tokens(s, Splitters)
  {
    assert s[0..] == s;
    SkipDelimiters(s, 0, a, Splitters);
    var l := s[a..];
    assert l == s[a..b] + s[b..];
    assert forall j :: 0 <= j < |s[b..]| ==> s[b..][j] == s[b + j];
    TrailingDelimiters(s[a..b], s[b..], Splitters);
  }

  lemma {:induction false} TrimLeftShape(s: string) returns (a: nat)
    ensures a <= |s| && TrimLeft(s) == s[a..]
    ensures TrimLeft(s) == [] || TrimLeft(s)[0] !in Splitters
    ensures forall i :: 0 <= i < a ==> s[i] in Splitters
  {
    if s != [] && s[0] in Splitters {
      var a' := TrimLeftShape(s[1..]);
      a := a' + 1;
      assert s[1..][a'..] == s[a..];
    } else {
      a := 0;
    }
  }

  lemma {:induction false} TrimRightShape(s: string) returns (b: nat)
    ensures b <= |s| && TrimRight(s) == s[..b]
    ensures TrimRight(s) == [] || TrimRight(s)[b - 1] !in Splitters
    ensures forall i :: b <= i < |s| ==> s[i] in Splitters
  {
    if s != [] && s[|s| - 1] in Splitters {
      b := TrimRightShape(s[..|s| - 1]);
      assert s[..|s| - 1][..b] == s[..b];
    } else {
      b := |s|;
    }
  }

  /** A line with no space or tab at either end is its own trim. */
  lemma TrimmedIsTrim(s: string)
    requires s == [] || (s[0] !in Splitters && s[|s| - 1] !in Splitters)
    ensures Trim(s) == s
  {
  }

  /** The two trimming loops at the head of parse_command. */
  method TrimLine(line: string) returns (t: string)
    ensures t == Trim(line) && |t| <= |line|
  {
    // trim left whitespace by advancing the start
    var lo, len := 0, |line|;
    while len > 0 && line[lo] in Splitters
      invariant 0 <= lo && 0 <= len && lo + len == |line|
      invariant TrimLeft(line[lo..]) == TrimLeft(line)
    {
      assert line[lo..][1..] == line[lo + 1..];
      lo, len := lo + 1, len - 1;
    }
    assert line[lo..lo + len] == line[lo..] == TrimLeft(line);
    // trim right whitespace by moving the terminator back
    while len > 0 && line[lo + len - 1] in Splitters
      invariant 0 <= lo && 0 <= len && lo + len <= |line|
      invariant TrimRight(line[lo..lo + len]) == Trim(line)
    {
      assert line[lo..lo + len][..len - 1] == line[lo..lo + len - 1];
      len := len - 1;
    }
    t := line[lo..lo + len];
  }

  /**
   * The text after a `|` token, from k past the blanks that follow it, is a
   * line parse_command handles, and it parses to the rest of the pipeline:
   * it ends with the same character, so it carries the same markers.
   */
  lemma PipeTail(t: string, k: nat, rest: seq<string>)
    requires t != [] && t[|t| - 1] !in Splitters
    requires k < |t| && t[k] !in Splitters
    requires Tokens(t[k..], Splitters) == rest && PipesFollowed(rest) && StageFits(rest)
    ensures ParseDefined(t[k..])
    ensures Parse(t[k..]) == Stage(rest, EndsWith(t, '&'), EndsWith(t, '?'))
  {
    TrimmedIsTrim(t[k..]);
  }

  /** The stage built from its name and the tokens read after it so far, before any `|`. */
  function StagePrefix(name: string, own: seq<string>, background: bool, autoComplete: bool): Command
  {
    Command(name, ArgsOf(own),
      LastRedirect(own, Input), LastRedirect(own, Output), LastRedirect(own, Append),
      background, autoComplete, None)
  }

  /** Reading one more token: the update each branch of the loop makes. */
  lemma StagePrefixStep(name: string, own: seq<string>, tok: string, background: bool, autoComplete: bool)
    ensures var before := StagePrefix(name, own, background, autoComplete);
      StagePrefix(name, own + [tok], background, autoComplete) ==
        if tok == "&" then before
        else if RedirectOf(tok) == Some(Input) then before.(inFile := Some(RedirectTarget(tok)))
        else if RedirectOf(tok) == Some(Output) then before.(outFile := Some(RedirectTarget(tok)))
        else if RedirectOf(tok) == Some(Append) then before.(appendFile := Some(RedirectTarget(tok)))
        else before.(args := before.args + [Unquote(tok)])
  {
    assert (own + [tok])[..|own|] == own;
  }

  /** The first stage is its prefix up to the first `|`, linked to the stages after it. */
  lemma StageSplit(toks: seq<string>, m: nat, background: bool, autoComplete: bool)
    requires PipesFollowed(toks) && StageEnd(toks) == m
    ensures Stage(toks, background, autoComplete) ==
      StagePrefix(toks[0], toks[1..m], background, autoComplete).(next :=
        if m < |toks| then Some(Stage(toks[m + 1..], background, autoComplete)) else None)
  {
  }

  /** A line whose trim has tokens parses to the stages of those tokens. */
  lemma ParseOfTokens(line: string, t: string)
    requires ParseDefined(line) && t == Trim(line) && Tokens(t, Splitters) != []
    ensures PipesFollowed(Tokens(t, Splitters)) && StageFits(Tokens(t, Splitters))
    ensures Parse(line) == Stage(Tokens(t, Splitters), EndsWith(t, '&'), EndsWith(t, '?'))
  {
  }

  /** The token strtok hands out is the next one of the line. */
  lemma HeadOfRest(toks: seq<string>, m: nat, tok: string, rest: seq<string>)
    requires m <= |toks| && toks[m..] == [tok] + rest
    ensures m < |toks| && toks[m] == tok && toks[m + 1..] == rest
  {
    assert toks[m..][0] == tok;
    assert toks[m..][1..] == toks[m + 1..];
  }

  /**
   * The token sequences the strtok loop can finish: each token before the
   * first `|` fits temp_buf, and that `|` has a pipeline after it.
   */
  predicate Walkable(rest: seq<string>)
    decreases |rest|
  {
    rest == [] ||
    if rest[0] == "|" then PipesFollowed(rest[1..]) && StageFits(rest[1..])
    else |rest[0]| < TempBufferSize && Walkable(rest[1..])
  }

  /**
   * What the strtok loop of parse_command builds once it has read the name
   * and the tokens own, with the tokens rest still to come.
   */
  function Walk(name: string, own: seq<string>, rest: seq<string>, background: bool, autoComplete: bool): Command
    requires Walkable(rest)
    decreases |rest|
  {
    if rest == [] then StagePrefix(name, own, background, autoComplete)
    else if rest[0] == "|" then
      StagePrefix(name, own, background, autoComplete).(next := Some(Stage(rest[1..], background, autoComplete)))
    else Walk(name, own + [rest[0]], rest[1..], background, autoComplete)
  }

  /** The loop, started anywhere before the first `|`, finishes with the pipeline Stage describes. */
  lemma {:induction false} WalkFrom(toks: seq<string>, m: nat, background: bool, autoComplete: bool)
    requires PipesFollowed(toks) && StageFits(toks) && 1 <= m <= StageEnd(toks)
    ensures Walkable(toks[m..])
    ensures Walk(toks[0], toks[1..m], toks[m..], background, autoComplete) == Stage(toks, background, autoComplete)
    decreases |toks| - m
  {
    var e := StageEnd(toks);
    StageSplit(toks, e, background, autoComplete);
    if m == e {
      if e < |toks| {
        assert toks[m..][1..] == toks[m + 1..];
      }
    } else {
      WalkFrom(toks, m + 1, background, autoComplete);
      assert toks[m] == toks[1..e][m - 1] && toks[m] in toks[1..e];
      assert toks[m..][0] == toks[m];
      assert toks[m..][1..] == toks[m + 1..];
      assert toks[1..m] + [toks[m]] == toks[1..m + 1];
    }
  }

  /** Reading the next token tok: the bound strcpy relies on, and one step of the loop. */
  lemma WalkStep(name: string, own: seq<string>, tok: string, rest: seq<string>, background: bool, autoComplete: bool)
    requires Walkable([tok] + rest)
    ensures |tok| < TempBufferSize
    ensures tok == "|" ==> PipesFollowed(rest) && StageFits(rest)
    ensures tok == "|" ==>
      Walk(name, own, [tok] + rest, background, autoComplete) ==
      StagePrefix(name, own, background, autoComplete).(next := Some(Stage(rest, background, autoComplete)))
    ensures tok != "|" ==> Walkable(rest)
    ensures tok != "|" ==>
      Walk(name, own, [tok] + rest, background, autoComplete) ==
      Walk(name, own + [tok], rest, background, autoComplete)
  {
    assert ([tok] + rest)[1..] == rest;
  }

  /** parse_command: trim, read the markers, take the name, then the rest of the stage. */
  method ParseCommand(line: string) returns (c: Command)
    requires ParseDefined(line)
    ensures c == Parse(line)
    decreases |line|, 3
  {
    var t := TrimLine(line);
    var autoComplete := |t| > 0 && t[|t| - 1] == '?';
    var background := |t| > 0 && t[|t| - 1] == '&';

    ghost var toks := Tokens(t, Splitters);
    assert t[0..] == t;
    var span, pos := NextToken(t, 0, Splitters);
    if span.None? {
      c := Command("", [], None, None, None, background, autoComplete, None);
      return;
    }
    var name := t[span.value.start..span.value.end];
    HeadOfRest(toks, 0, name, Tokens(t[pos..], Splitters));
    TrimShape(line);
    ParseOfTokens(line, t);
    WalkFrom(toks, 1, background, autoComplete);
    assert toks[1..1] == [];
    c := ParseStage(t, pos, name, background, autoComplete);
  }

  /** The strtok loop of parse_command, with strtok's saved pointer as pos. */
  method ParseStage(t: string, pos: nat, name: string, background: bool, autoComplete: bool)
    returns (c: Command)
    requires t != [] && t[|t| - 1] !in Splitters && pos <= |t|
    requires Walkable(Tokens(t[pos..], Splitters))
    requires background == EndsWith(t, '&') && autoComplete == EndsWith(t, '?')
    ensures c == Walk(name, [], Tokens(t[pos..], Splitters), background, autoComplete)
    decreases |t|, 2
  {
    c := Command(name, [], None, None, None, background, autoComplete, None);
    ghost var goal := Walk(name, [], Tokens(t[pos..], Splitters), background, autoComplete);
    ghost var own: seq<string> := [];
    var pos := pos;
    var done := false;
    while !done
      invariant pos <= |t|
      invariant !done ==> Walkable(Tokens(t[pos..], Splitters))
      invariant !done ==> c == StagePrefix(name, own, background, autoComplete)
      invariant !done ==> Walk(name, own, Tokens(t[pos..], Splitters), background, autoComplete) == goal
      invariant done ==> c == goal
      decreases |t| - pos, if done then 0 else 1
    {
      done, c, pos, own := StageStep(t, pos, c, name, own, background, autoComplete);
    }
  }

  /**
   * One round of the stage loop: the next strtok token ends the stage (no
   * token, or a pipe followed by the rest of the line) or is added to it.
   */
  method StageStep(t: string, pos: nat, c: Command, ghost name: string, ghost own: seq<string>, background: bool, autoComplete: bool)
    returns (done: bool, d: Command, next: nat, ghost own': seq<string>)
    requires t != [] && t[|t| - 1] !in Splitters && pos <= |t|
    requires Walkable(Tokens(t[pos..], Splitters))
    requires background == EndsWith(t, '&') && autoComplete == EndsWith(t, '?')
    requires c == StagePrefix(name, own, background, autoComplete)
    ensures pos <= next <= |t|
    ensures done ==> d == Walk(name, own, Tokens(t[pos..], Splitters), background, autoComplete)
    ensures !done ==> pos < next
    ensures !done ==> Walkable(Tokens(t[next..], Splitters))
    ensures !done ==> d == StagePrefix(name, own', background, autoComplete)
    ensures !done ==>
      Walk(name, own', Tokens(t[next..], Splitters), background, autoComplete) ==
      Walk(name, own, Tokens(t[pos..], Splitters), background, autoComplete)
    decreases |t|, 1
  {
    var tokSpan, resume := NextToken(t, pos, Splitters);
    if tokSpan.None? {
      // strtok returned NULL: the stage ends with the line
      return true, c, pos, own;
    }
    var e := tokSpan.value.end;
    var tok := t[tokSpan.value.start..e];
    // strcpy(temp_buf, pch) stays inside temp_buf
    WalkStep(name, own, tok, Tokens(t[resume..], Splitters), background, autoComplete);
    if tok == "|" {
      var rest := ParsePipeTail(t, e, resume);
      // the nested call consumed the rest of the line, so the next strtok
      // of the loop returns NULL and the loop ends
      return true, c.(next := Some(rest)), resume, own;
    }
    d := AddToken(c, tok, name, own, background, autoComplete);
    return false, d, resume, own + [tok];
  }

  /** One token after the name that is not a pipe: a background marker, a redirect or an argument. */
  method AddToken(c: Command, tok: string, ghost name: string, ghost own: seq<string>, ghost background: bool, ghost autoComplete: bool)
    returns (d: Command)
    requires c == StagePrefix(name, own, background, autoComplete)
    ensures d == StagePrefix(name, own + [tok], background, autoComplete)
  {
    StagePrefixStep(name, own, tok, background, autoComplete);
    d := c;
    if tok == "&" {
      // background marker, read from the last character already
    } else if RedirectOf(tok).Some? {
      // the last redirect of each kind wins
      match RedirectOf(tok).value
      case Input => d := d.(inFile := Some(RedirectTarget(tok)));
      case Output => d := d.(outFile := Some(RedirectTarget(tok)));
      case Append => d := d.(appendFile := Some(RedirectTarget(tok)));
    } else {
      // a plain argument, unquoted when wrapped in matching quotes
      d := d.(args := d.args + [Unquote(tok)]);
    }
  }

  /**
   * The `|` branch: restore the character strtok overwrote after the `|`
   * (at e), skip the blanks that follow, and parse the rest of the line.
   */
  method ParsePipeTail(t: string, e: nat, ghost resume: nat)
    returns (rest: Command)
    requires t != [] && t[|t| - 1] !in Splitters
    requires 1 <= e <= resume <= |t|
    requires resume == (if e < |t| then e + 1 else e) && (e < |t| ==> t[e] in Splitters)
    requires PipesFollowed(Tokens(t[resume..], Splitters)) && StageFits(Tokens(t[resume..], Splitters))
    ensures rest == Stage(Tokens(t[resume..], Splitters), EndsWith(t, '&'), EndsWith(t, '?'))
    decreases |t|, 0
  {
    var k := e;
    while k < |t| && t[k] in Splitters
      invariant e <= k <= |t|
      invariant forall j :: e <= j < k ==> t[j] in Splitters
    {
      k := k + 1;
    }
    TailOfPipe(t, e, resume, k);
    rest := ParseCommand(t[k..]);
  }

  /** The text after a `|` token, from the first character that is not blank, parses to the rest of the pipeline. */
  lemma TailOfPipe(t: string, e: nat, resume: nat, k: nat)
    requires t != [] && t[|t| - 1] !in Splitters
    requires e <= resume <= |t| && e <= k <= |t|
    requires resume == (if e < |t| then e + 1 else e) && (e < |t| ==> t[e] in Splitters)
    requires forall j :: e <= j < k ==> t[j] in Splitters
    requires k == |t| || t[k] !in Splitters
    requires PipesFollowed(Tokens(t[resume..], Splitters)) && StageFits(Tokens(t[resume..], Splitters))
    ensures k < |t| && ParseDefined(t[k..])
    ensures Parse(t[k..]) == Stage(Tokens(t[resume..], Splitters), EndsWith(t, '&'), EndsWith(t, '?'))
  {
    assert forall j :: e <= j < resume ==> t[j] in Splitters;
    SkipDelimiters(t, e, resume, Splitters);
    SkipDelimiters(t, e, k, Splitters);
    PipeTail(t, k, Tokens(t[resume..], Splitters));
  }
}
