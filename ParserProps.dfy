/**
 * Properties of parse_command's model: the markers reach every stage, and
 * rendering a well-formed pipeline as text and parsing it gives it back.
 */
module ParserProps {
  import opened Wrappers
  import opened Tokenizer
  import opened CommandModel
  import opened Parser

  /** Both markers, read once from the trimmed line, are on every stage of the pipeline. */
  lemma {:induction false} StageFlags(toks: seq<string>, background: bool, autoComplete: bool)
    requires PipesFollowed(toks)
    ensures forall s | s in Stages(Stage(toks, background, autoComplete)) ::
      s.background == background && s.autoComplete == autoComplete
    decreases |toks|
  {
    var e := StageEnd(toks);
    if e < |toks| {
      StageFlags(toks[e + 1..], background, autoComplete);
    }
  }

  /**
   * auto_complete is set on every stage exactly when the trimmed line ends
   * with `?`, and background exactly when it ends with `&`.
   */
  lemma FlagsOnEveryStage(line: string)
    requires ParseDefined(line)
    ensures forall s | s in Stages(Parse(line)) ::
      && (s.autoComplete <==> EndsWith(Trim(line), '?'))
      && (s.background <==> EndsWith(Trim(line), '&'))
  {
    var t := Trim(line);
    if Tokens(t, Splitters) != [] {
      StageFlags(Tokens(t, Splitters), EndsWith(t, '&'), EndsWith(t, '?'));
    }
  }

  // ---------------------------------------------------------------------
  // Rendering a pipeline as a command line

  /** A word with no blank, and no `&` or `?` that could be read as a marker. */
  predicate Clean(w: string)
  {
    forall i :: 0 <= i < |w| ==> w[i] !in Splitters && w[i] != '&' && w[i] != '?'
  }

  /** An argument that parse_command stores as written. */
  predicate PlainArg(a: string)
  {
    a != [] && Clean(a) && a != "|" && RedirectOf(a).None? && !IsQuoted(a) && |a| < TempBufferSize
  }

  /** A stage that can be written as words and read back. */
  predicate StageWellFormed(c: Command)
  {
    && c.name != [] && Clean(c.name)
    && (forall a | a in c.args :: PlainArg(a))
    && (c.inFile.Some? ==> Clean(c.inFile.value) && |c.inFile.value| + 1 < TempBufferSize)
    && (c.outFile.Some? ==> Clean(c.outFile.value) && |c.outFile.value| + 1 < TempBufferSize
                            && (c.outFile.value == [] || c.outFile.value[0] != '>'))
    && (c.appendFile.Some? ==> Clean(c.appendFile.value) && |c.appendFile.value| + 2 < TempBufferSize)
    && !c.autoComplete
  }

  /** Every stage well formed, all sharing the first stage's background marker. */
  predicate WellFormed(c: Command)
    decreases c
  {
    StageWellFormed(c) &&
    match c.next
    case None => true
    case Some(n) => n.background == c.background && WellFormed(n)
  }

  /** The redirect words of a stage: input, output, then append. */
  function RedirectWords(c: Command): seq<string>
  {
    (if c.inFile.Some? then ["<" + c.inFile.value] else []) +
    (if c.outFile.Some? then [">" + c.outFile.value] else []) +
    (if c.appendFile.Some? then [">>" + c.appendFile.value] else [])
  }

  /** What follows the name within a stage, with the `&` after the last stage of a background pipeline. */
  function OwnWords(c: Command): seq<string>
  {
    c.args + RedirectWords(c) + (if c.next.None? && c.background then ["&"] else [])
  }

  /** The words of a pipeline: each stage's name and own words, stages joined by `|`. */
  function Words(c: Command): seq<string>
    decreases c
  {
    [c.name] + OwnWords(c) +
    match c.next
    case None => []
    case Some(n) => ["|"] + Words(n)
  }

  /** The command line of a pipeline: its words separated by single spaces. */
  function Render(c: Command): string
  {
    Join(Words(c), ' ')
  }

  /** A word of a well-formed pipeline: a token that ends in no marker, or the `&` marker itself. */
  predicate GoodWord(w: string)
  {
    IsToken(w, Splitters) && (w == "&" || (w[|w| - 1] != '&' && w[|w| - 1] != '?'))
  }

  /** A redirect marker followed by a clean file name is a good word. */
  lemma MarkedGood(marker: string, f: string)
    requires marker == "<" || marker == ">" || marker == ">>"
    requires Clean(f) && |marker| + |f| < TempBufferSize
    ensures RedirectWord(marker + f)
  {
    var w := marker + f;
    assert forall i :: |marker| <= i < |w| ==> w[i] == f[i - |marker|];
    assert forall i :: 0 <= i < |w| ==> w[i] !in Splitters;
    assert w[0] == marker[0] != '&';
    if f != [] {
      assert w[|w| - 1] == f[|f| - 1];
    } else {
      assert w == marker;
      assert w[|w| - 1] == '<' || w[|w| - 1] == '>';
    }
  }

  /** A good word that fits temp_buf and is read as a redirect. */
  predicate RedirectWord(w: string)
  {
    GoodWord(w) && |w| < TempBufferSize && w != "&" && w != "|" && RedirectOf(w).Some?
  }

  lemma RedirectWordsGood(c: Command)
    requires StageWellFormed(c)
    ensures forall w | w in RedirectWords(c) :: RedirectWord(w)
  {
    if c.inFile.Some? { MarkedGood("<", c.inFile.value); }
    if c.outFile.Some? { MarkedGood(">", c.outFile.value); }
    if c.appendFile.Some? { MarkedGood(">>", c.appendFile.value); }
  }

  /** The own words of a stage are good and fit temp_buf, none is `|`, and `&` is there only as the background marker. */
  lemma OwnWordsGood(c: Command)
    requires StageWellFormed(c)
    ensures forall w | w in OwnWords(c) :: GoodWord(w) && w != "|"
    ensures Fits(OwnWords(c))
    ensures OwnWords(c) != [] && OwnWords(c)[|OwnWords(c)| - 1] == "&" ==> c.next.None? && c.background
  {
    RedirectWordsGood(c);
    assert forall a | a in c.args :: PlainArg(a);
    var amp: seq<string> := if c.next.None? && c.background then ["&"] else [];
    assert OwnWords(c) == c.args + RedirectWords(c) + amp;
    if OwnWords(c) != [] && amp == [] {
      var w := OwnWords(c)[|OwnWords(c)| - 1];
      assert w in c.args + RedirectWords(c);
    }
  }

  /** The name of a stage is a good word other than `&`. */
  lemma NameGood(c: Command)
    requires StageWellFormed(c)
    ensures GoodWord(c.name) && c.name != "&"
  {
    assert c.name[|c.name| - 1] != '&' && c.name[|c.name| - 1] != '?';
  }

  /** The words of one stage are good, and end in `&` only on the last stage of a background pipeline. */
  lemma HeadGood(c: Command)
    requires StageWellFormed(c)
    ensures forall w | w in [c.name] + OwnWords(c) :: GoodWord(w)
    ensures var h := [c.name] + OwnWords(c); h[|h| - 1] == "&" ==> c.next.None? && c.background
    ensures c.next.None? && c.background ==> OwnWords(c)[|OwnWords(c)| - 1] == "&"
  {
    OwnWordsGood(c);
    NameGood(c);
    assert forall w | w in [c.name] + OwnWords(c) :: w == c.name || w in OwnWords(c);
  }

  /** Every word is good, and only the last can be `&`. */
  lemma {:induction false} WordsGood(c: Command)
    requires WellFormed(c)
    ensures forall w | w in Words(c) :: GoodWord(w)
    ensures Words(c) != []
    ensures var w := Words(c); w[|w| - 1] == "&" <==> c.background
    decreases c
  {
    HeadGood(c);
    var head := [c.name] + OwnWords(c);
    match c.next
    case None =>
      assert Words(c) == head;
    case Some(n) =>
      WordsGood(n);
      var w := Words(c);
      assert w == head + (["|"] + Words(n));
      assert forall x | x in w :: x in head || x == "|" || x in Words(n);
      assert w[|w| - 1] == Words(n)[|Words(n)| - 1];
  }

  /** The joined words start with the first word's first character and end with the last word's last. */
  lemma {:induction false} JoinEnds(words: seq<string>, sep: char)
    requires words != [] && forall i :: 0 <= i < |words| ==> words[i] != []
    ensures var s := Join(words, sep); var l := words[|words| - 1];
      s != [] && s[0] == words[0][0] && s[|s| - 1] == l[|l| - 1]
  {
    if |words| > 1 {
      JoinEnds(words[1..], sep);
      assert words[1..][|words[1..]| - 1] == words[|words| - 1];
    }
  }

  /** FindPipe stops at e when no `|` comes before it. */
  lemma {:induction false} FindPipeAt(toks: seq<string>, from: nat, e: nat)
    requires from <= e <= |toks|
    requires forall j :: from <= j < e ==> toks[j] != "|"
    requires e == |toks| || toks[e] == "|"
    ensures FindPipe(toks, from) == e
    decreases e - from
  {
    if from < e {
      FindPipeAt(toks, from + 1, e);
    }
  }

  lemma {:induction false} ArgsOfAppend(a: seq<string>, b: seq<string>)
    ensures ArgsOf(a + b) == ArgsOf(a) + ArgsOf(b)
    decreases |b|
  {
    if b == [] {
      assert a + b == a;
    } else {
      ArgsOfAppend(a, b[..|b| - 1]);
      assert (a + b)[..|a + b| - 1] == a + b[..|b| - 1];
    }
  }

  lemma {:induction false} LastRedirectAppend(a: seq<string>, b: seq<string>, kind: RedirectKind)
    ensures LastRedirect(a + b, kind) ==
      if LastRedirect(b, kind).Some? then LastRedirect(b, kind) else LastRedirect(a, kind)
    decreases |b|
  {
    if b == [] {
      assert a + b == a;
    } else {
      LastRedirectAppend(a, b[..|b| - 1], kind);
      assert (a + b)[..|a + b| - 1] == a + b[..|b| - 1];
    }
  }

  /** Plain arguments are stored as written and fill no redirect slot. */
  lemma {:induction false} PlainArgsKept(args: seq<string>)
    requires forall a | a in args :: PlainArg(a)
    ensures ArgsOf(args) == args
    ensures forall kind :: LastRedirect(args, kind) == None
    decreases |args|
  {
    if args != [] {
      var init := args[..|args| - 1];
      assert forall a | a in init :: a in args;
      assert args[|args| - 1] in args;
      PlainArgsKept(init);
      assert init + [args[|args| - 1]] == args;
    }
  }

  /** One redirect word written after a marker is read back into the same slot. */
  lemma OneRedirect(marker: string, f: string, kind: RedirectKind)
    requires (marker == "<" && kind == Input) || (marker == ">" && kind == Output && (f == [] || f[0] != '>'))
      || (marker == ">>" && kind == Append)
    ensures RedirectOf(marker + f) == Some(kind) && RedirectTarget(marker + f) == f
    ensures ArgsOf([marker + f]) == []
    ensures forall k :: LastRedirect([marker + f], k) == if k == kind then Some(f) else None
  {
    var w := marker + f;
    assert w[0] == marker[0];
    if marker == ">" && f != [] {
      assert w[1] == f[0];
    } else if marker == ">>" {
      assert w[1] == '>';
    }
    var r := RedirectTarget(w);
    assert marker + r == marker + f;
    assert r == (marker + r)[|marker|..];
  }

  /** The redirect slot of a stage for one kind. */
  function Slot(c: Command, kind: RedirectKind): Option<string>
  {
    match kind
    case Input => c.inFile
    case Output => c.outFile
    case Append => c.appendFile
  }

  /** The redirect words of a stage give back its three slots and no argument. */
  lemma RedirectSlots(c: Command)
    requires StageWellFormed(c)
    ensures ArgsOf(RedirectWords(c)) == []
    ensures forall kind :: LastRedirect(RedirectWords(c), kind) == Slot(c, kind)
  {
    var i: seq<string> := if c.inFile.Some? then ["<" + c.inFile.value] else [];
    var o: seq<string> := if c.outFile.Some? then [">" + c.outFile.value] else [];
    var a: seq<string> := if c.appendFile.Some? then [">>" + c.appendFile.value] else [];
    if c.inFile.Some? { OneRedirect("<", c.inFile.value, Input); }
    if c.outFile.Some? { OneRedirect(">", c.outFile.value, Output); }
    if c.appendFile.Some? { OneRedirect(">>", c.appendFile.value, Append); }
    ArgsOfAppend(i, o);
    ArgsOfAppend(i + o, a);
    forall kind: RedirectKind
      ensures LastRedirect(i + o + a, kind) == Slot(c, kind)
    {
      LastRedirectAppend(i, o, kind);
      LastRedirectAppend(i + o, a, kind);
    }
  }

  /** The words after a stage's name give back its arguments and redirect slots. */
  lemma OwnSlots(c: Command)
    requires StageWellFormed(c)
    ensures ArgsOf(OwnWords(c)) == c.args
    ensures LastRedirect(OwnWords(c), Input) == c.inFile
    ensures LastRedirect(OwnWords(c), Output) == c.outFile
    ensures LastRedirect(OwnWords(c), Append) == c.appendFile
  {
    PlainArgsKept(c.args);
    RedirectSlots(c);
    var amp: seq<string> := if c.next.None? && c.background then ["&"] else [];
    assert OwnWords(c) == c.args + RedirectWords(c) + amp;
    assert ArgsOf(amp) == [];
    assert forall kind :: LastRedirect(amp, kind) == None;
    ThreeParts(c.args, RedirectWords(c), amp);
    assert Slot(c, Input) == c.inFile && Slot(c, Output) == c.outFile && Slot(c, Append) == c.appendFile;
  }

  /** Words of three parts where only the first holds arguments and only the middle one redirects. */
  lemma ThreeParts(args: seq<string>, r: seq<string>, amp: seq<string>)
    requires ArgsOf(args) == args && ArgsOf(r) == [] && ArgsOf(amp) == []
    requires forall kind :: LastRedirect(args, kind) == None && LastRedirect(amp, kind) == None
    ensures ArgsOf(args + r + amp) == args
    ensures forall kind :: LastRedirect(args + r + amp, kind) == LastRedirect(r, kind)
  {
    ArgsOfAppend(args, r);
    ArgsOfAppend(args + r, amp);
    forall kind: RedirectKind
      ensures LastRedirect(args + r + amp, kind) == LastRedirect(r, kind)
    {
      MiddleSlot(args, r, amp, kind);
    }
  }

  /** Words of three parts where only the middle one redirects: that redirect is the slot. */
  lemma MiddleSlot(args: seq<string>, r: seq<string>, amp: seq<string>, kind: RedirectKind)
    requires LastRedirect(args, kind) == None && LastRedirect(amp, kind) == None
    ensures LastRedirect(args + r + amp, kind) == LastRedirect(r, kind)
  {
    LastRedirectAppend(args, r, kind);
    LastRedirectAppend(args + r, amp, kind);
  }

  /** A stage's own words are followed by the end or a `|`: its first stage ends right after them. */
  lemma StageHead(c: Command, rest: seq<string>)
    requires StageWellFormed(c)
    requires rest == [] || rest[0] == "|"
    ensures var w := [c.name] + OwnWords(c) + rest; var e := 1 + |OwnWords(c)|;
      e <= |w| && w[0] == c.name && w[1..e] == OwnWords(c) && StageEnd(w) == e
  {
    var own := OwnWords(c);
    var w := [c.name] + own + rest;
    var e := 1 + |own|;
    OwnWordsGood(c);
    assert w[1..e] == own;
    assert forall j :: 1 <= j < e ==> w[j] != "|" by {
      forall j | 1 <= j < e ensures w[j] != "|" {
        assert w[j] == own[j - 1] && own[j - 1] in own;
      }
    }
    if rest != [] {
      assert w[e] == rest[0];
    }
    FindPipeAt(w, 1, e);
  }

  /** The words of a well-formed pipeline describe exactly that pipeline. */
  lemma {:induction false} StageOfWords(c: Command)
    requires WellFormed(c)
    ensures PipesFollowed(Words(c))
    ensures Stage(Words(c), c.background, false) == c
    decreases c
  {
    var w := Words(c);
    var own := OwnWords(c);
    var e := 1 + |own|;
    OwnSlots(c);
    match c.next
    case None =>
      assert w == [c.name] + own + [];
      StageHead(c, []);
    case Some(n) =>
      var rest := ["|"] + Words(n);
      assert w == [c.name] + own + rest;
      StageHead(c, rest);
      assert w[e + 1..] == Words(n);
      StageOfWords(n);
  }

  /** The words after each stage name of a well-formed pipeline fit temp_buf. */
  lemma {:induction false} WordsFit(c: Command)
    requires WellFormed(c) && PipesFollowed(Words(c))
    ensures StageFits(Words(c))
    decreases c
  {
    var w := Words(c);
    var e := 1 + |OwnWords(c)|;
    OwnWordsGood(c);
    match c.next
    case None =>
      assert w == [c.name] + OwnWords(c) + [];
      StageHead(c, []);
      FitsFirstStage(w, e);
    case Some(n) =>
      var rest := ["|"] + Words(n);
      assert w == [c.name] + OwnWords(c) + rest;
      StageHead(c, rest);
      assert w[e + 1..] == Words(n);
      WordsFit(n);
      FitsFirstStage(w, e);
  }

  /** The tokens after each name fit when the first stage's do and the rest of the pipeline's do. */
  lemma FitsFirstStage(w: seq<string>, e: nat)
    requires PipesFollowed(w) && StageEnd(w) == e && Fits(w[1..e])
    requires e < |w| ==> StageFits(w[e + 1..])
    ensures StageFits(w)
  {
  }

  /** Good words joined by spaces: a trimmed line that splits back into them and ends as its last word does. */
  lemma JoinedLine(w: seq<string>)
    requires w != [] && forall x | x in w :: GoodWord(x)
    ensures Trim(Join(w, ' ')) == Join(w, ' ')
    ensures Tokens(Join(w, ' '), Splitters) == w
    ensures EndsWith(Join(w, ' '), '&') <==> w[|w| - 1] == "&"
    ensures !EndsWith(Join(w, ' '), '?')
  {
    GoodWords(w);
    TokensOfJoin(w, ' ', Splitters);
    JoinedEnds(w);
    TrimmedIsTrim(Join(w, ' '));
  }

  /** The ends of good words joined by spaces are the ends of the first and the last word. */
  lemma JoinedEnds(w: seq<string>)
    requires w != [] && forall i :: 0 <= i < |w| ==> w[i] != []
    requires GoodWord(w[0]) && GoodWord(w[|w| - 1])
    ensures var s := Join(w, ' '); s != [] && s[0] !in Splitters && s[|s| - 1] !in Splitters
    ensures EndsWith(Join(w, ' '), '&') <==> w[|w| - 1] == "&"
    ensures !EndsWith(Join(w, ' '), '?')
  {
    var s := Join(w, ' ');
    var first, last := w[0], w[|w| - 1];
    JoinEnds(w, ' ');
    assert s != [] && s[0] == first[0] && s[|s| - 1] == last[|last| - 1];
    GoodEnds(s, first, last);
  }

  /** What the words of a rendered line have in common: each is a token. */
  lemma GoodWords(w: seq<string>)
    requires w != [] && forall x | x in w :: GoodWord(x)
    ensures forall i :: 0 <= i < |w| ==> w[i] != []
    ensures forall x | x in w :: IsToken(x, Splitters)
    ensures GoodWord(w[0]) && GoodWord(w[|w| - 1])
  {
    forall i | 0 <= i < |w| ensures w[i] != [] {
      assert w[i] in w;
    }
    assert w[|w| - 1] in w;
    assert w[0] in w;
  }

  /** A line that starts as one good word and ends as another has no blank at either end, and ends in `&` only as that marker. */
  lemma GoodEnds(s: string, first: string, last: string)
    requires GoodWord(first) && GoodWord(last)
    requires s != [] && s[0] == first[0] && s[|s| - 1] == last[|last| - 1]
    ensures s[0] !in Splitters && s[|s| - 1] !in Splitters
    ensures EndsWith(s, '&') <==> last == "&"
    ensures !EndsWith(s, '?')
  {
    assert first[0] !in Splitters;
    assert last[|last| - 1] !in Splitters;
  }

  /** The rendered line is already trimmed, splits back into its words, and carries only the background marker. */
  lemma RenderedLine(c: Command)
    requires WellFormed(c)
    ensures Trim(Render(c)) == Render(c)
    ensures Tokens(Render(c), Splitters) == Words(c)
    ensures EndsWith(Render(c), '&') <==> c.background
    ensures !EndsWith(Render(c), '?')
  {
    WordsGood(c);
    JoinedLine(Words(c));
  }

  /**
   * The round trip: the text of a well-formed pipeline is a line
   * parse_command handles, and it parses back to the same pipeline.
   */
  lemma RoundTrip(c: Command)
    requires WellFormed(c)
    ensures ParseDefined(Render(c))
    ensures Parse(Render(c)) == c
  {
    RenderedLine(c);
    StageOfWords(c);
    WordsFit(c);
  }

  // ---------------------------------------------------------------------
  // Example lines

  /** The parse of a line that is words of plain tokens separated by single spaces. */
  lemma LineOfTokens(line: string, toks: seq<string>)
    requires line == Join(toks, ' ') && toks != []
    requires forall i :: 0 <= i < |toks| ==> IsToken(toks[i], Splitters) && |toks[i]| < TempBufferSize
    requires PipesFollowed(toks)
    ensures Trim(line) == line && Tokens(line, Splitters) == toks && ParseDefined(line)
    ensures forall c :: EndsWith(line, c) <==> EndsWith(toks[|toks| - 1], c)
    ensures Parse(line) == Stage(toks, EndsWith(line, '&'), EndsWith(line, '?'))
  {
    assert Fits(toks);
    FitsStageFits(toks);
    LineOfStages(line, toks);
  }

  /** The same, when only the tokens after each stage name fit temp_buf. */
  lemma LineOfStages(line: string, toks: seq<string>)
    requires line == Join(toks, ' ') && toks != []
    requires forall i :: 0 <= i < |toks| ==> IsToken(toks[i], Splitters)
    requires PipesFollowed(toks) && StageFits(toks)
    ensures Trim(line) == line && Tokens(line, Splitters) == toks && ParseDefined(line)
    ensures forall c :: EndsWith(line, c) <==> EndsWith(toks[|toks| - 1], c)
    ensures Parse(line) == Stage(toks, EndsWith(line, '&'), EndsWith(line, '?'))
  {
    TokensOfJoin(toks, ' ', Splitters);
    JoinEnds(toks, ' ');
    assert toks[0][0] !in Splitters;
    var l := toks[|toks| - 1];
    assert l[|l| - 1] !in Splitters;
    TrimmedIsTrim(line);
  }

  /** When every token fits temp_buf, so do the tokens after each stage name. */
  lemma {:induction false} FitsStageFits(toks: seq<string>)
    requires PipesFollowed(toks) && Fits(toks)
    ensures StageFits(toks)
    decreases |toks|
  {
    var e := StageEnd(toks);
    assert forall x | x in toks[1..e] :: x in toks;
    if e < |toks| {
      assert forall x | x in toks[e + 1..] :: x in toks;
      FitsStageFits(toks[e + 1..]);
    }
  }

  /**
   * A one-word line of any length: the name is copied into a buffer of its
   * own length, so it is not bounded by temp_buf.
   */
  lemma LongName(line: string)
    requires line != [] && Clean(line)
    ensures ParseDefined(line)
    ensures Parse(line) == Command(line, [], None, None, None, false, false, None)
  {
    assert IsToken(line, Splitters);
    assert Join([line], ' ') == line;
    TokensOfJoin([line], ' ', Splitters);
    TrimmedIsTrim(line);
    FindPipeAt([line], 1, 1);
    assert [line][1..1] == [];
  }

  /** A name of any length after a `|`: only the tokens following each name must fit temp_buf. */
  lemma LongNameAfterPipe(line: string, a: string, b: string)
    requires PlainArg(a) && b != [] && Clean(b)
    requires line == Join([a, "|", b], ' ')
    ensures ParseDefined(line)
    ensures Parse(line) ==
      Command(a, [], None, None, None, false, false, Some(Command(b, [], None, None, None, false, false, None)))
  {
    var toks := [a, "|", b];
    LongNameStages(toks);
    LineOfStages(line, toks);
  }

  /** The tokens of such a line: a stage with no arguments, a `|`, and a bare name. */
  lemma LongNameStages(toks: seq<string>)
    requires |toks| == 3 && PlainArg(toks[0]) && toks[1] == "|" && toks[2] != [] && Clean(toks[2])
    ensures forall i :: 0 <= i < |toks| ==> IsToken(toks[i], Splitters)
    ensures !EndsWith(toks[2], '&') && !EndsWith(toks[2], '?')
    ensures PipesFollowed(toks) && StageFits(toks)
    ensures Stage(toks, false, false) ==
      Command(toks[0], [], None, None, None, false, false, Some(Command(toks[2], [], None, None, None, false, false, None)))
  {
    var b := toks[2];
    PlainToken(toks[0]);
    assert IsToken("|", Splitters) && IsToken(b, Splitters);
    FindPipeAt(toks, 1, 1);
    assert toks[1..1] == [] && toks[2..] == [b];
    FindPipeAt([b], 1, 1);
    assert [b][1..1] == [];
    StageSplit(toks, 1, false, false);
  }

  /** What one token contributes to the arguments and to each redirect slot. */
  lemma OneToken(tok: string)
    ensures ArgsOf([tok]) == if IsArgument(tok) then [Unquote(tok)] else []
    ensures forall kind :: LastRedirect([tok], kind) == if RedirectOf(tok) == Some(kind) then Some(RedirectTarget(tok)) else None
  {
    assert [tok][..0] == [];
  }

  /** A plain argument is a token that is stored as written and fills no slot. */
  lemma PlainToken(a: string)
    requires PlainArg(a)
    ensures IsToken(a, Splitters) && IsArgument(a) && Unquote(a) == a && a != "|"
    ensures a[|a| - 1] != '&' && a[|a| - 1] != '?'
    ensures ArgsOf([a]) == [a] && LastRedirect([a], Input).None?
    ensures LastRedirect([a], Output).None? && LastRedirect([a], Append).None?
  {
    assert a[|a| - 1] != '&';
    OneToken(a);
  }

  /** A plain stage of a name and one argument. */
  lemma NameAndArgument(toks: seq<string>)
    requires |toks| == 2 && IsArgument(toks[1]) && toks[1] != "|" && !IsQuoted(toks[1])
    ensures PipesFollowed(toks)
    ensures forall bg, ac :: Stage(toks, bg, ac) == Command(toks[0], [toks[1]], None, None, None, bg, ac, None)
  {
    FindPipeAt(toks, 1, 2);
    assert toks[1..2] == [toks[1]];
    OneToken(toks[1]);
  }

  /** The later of two redirect slots: a second redirect of a kind replaces the first. */
  function Later(first: Option<string>, second: Option<string>): Option<string>
  {
    if second.Some? then second else first
  }

  /** A stage of a name and two more tokens, neither of them `|`. */
  lemma NameAndTwo(toks: seq<string>, background: bool, autoComplete: bool)
    requires |toks| == 3 && toks[1] != "|" && toks[2] != "|"
    ensures PipesFollowed(toks)
    ensures var x, y := toks[1], toks[2];
      Stage(toks, background, autoComplete) ==
      Command(toks[0], ArgsOf([x]) + ArgsOf([y]),
        Later(LastRedirect([x], Input), LastRedirect([y], Input)),
        Later(LastRedirect([x], Output), LastRedirect([y], Output)),
        Later(LastRedirect([x], Append), LastRedirect([y], Append)),
        background, autoComplete, None)
  {
    var x, y := toks[1], toks[2];
    FindPipeAt(toks, 1, 3);
    assert toks[1..3] == [x] + [y];
    ArgsOfAppend([x], [y]);
    LastRedirectAppend([x], [y], Input);
    LastRedirectAppend([x], [y], Output);
    LastRedirectAppend([x], [y], Append);
  }

  /** Two words joined by a separator. */
  lemma JoinTwo(w: seq<string>, sep: char)
    requires |w| == 2
    ensures Join(w, sep) == w[0] + [sep] + w[1]
  {
    assert w[1..] == [w[1]];
  }

  /** Three words joined by a separator. */
  lemma JoinThree(w: seq<string>, sep: char)
    requires |w| == 3
    ensures Join(w, sep) == w[0] + [sep] + w[1] + [sep] + w[2]
  {
    JoinTwo(w[1..], sep);
  }

  /**
   * `<` followed by a blank (`sort < in.txt`): the `<` token stores an
   * empty input file name, and the file name becomes an argument.
   */
  lemma RedirectNeedsAttachedName(line: string, name: string, file: string)
    requires PlainArg(name) && PlainArg(file)
    requires line == Join([name, "<", file], ' ')
    ensures ParseDefined(line)
    ensures Parse(line) == Command(name, [file], Some(""), None, None, false, false, None)
  {
    var toks := [name, "<", file];
    RedirectAloneStage(toks);
    LineOfTokens(line, toks);
  }

  /** The tokens of such a line: a redirect token with nothing attached, then a plain word. */
  lemma RedirectAloneStage(toks: seq<string>)
    requires |toks| == 3 && PlainArg(toks[0]) && toks[1] == "<" && PlainArg(toks[2])
    ensures forall i :: 0 <= i < |toks| ==> IsToken(toks[i], Splitters) && |toks[i]| < TempBufferSize
    ensures !EndsWith(toks[2], '&') && !EndsWith(toks[2], '?')
    ensures PipesFollowed(toks)
    ensures Stage(toks, false, false) == Command(toks[0], [toks[2]], Some(""), None, None, false, false, None)
  {
    PlainToken(toks[0]);
    PlainToken(toks[2]);
    assert IsToken("<", Splitters);
    NameAndTwo(toks, false, false);
    OneToken("<");
  }

  /**
   * A pipe (`ls -l | wc -c`): the `|` ends the first stage and the words
   * after it become the next stage.
   */
  lemma PipeExample(line: string, a: string, b: string, c: string, d: string)
    requires PlainArg(a) && PlainArg(b) && PlainArg(c) && PlainArg(d)
    requires line == Join([a, b, "|", c, d], ' ')
    ensures ParseDefined(line)
    ensures Parse(line) ==
      Command(a, [b], None, None, None, false, false,
        Some(Command(c, [d], None, None, None, false, false, None)))
  {
    var toks := [a, b, "|", c, d];
    PipeStages(toks);
    LineOfTokens(line, toks);
  }

  /** The tokens of such a line: two plain stages around a `|`. */
  lemma PipeStages(toks: seq<string>)
    requires |toks| == 5 && toks[2] == "|"
    requires PlainArg(toks[0]) && PlainArg(toks[1]) && PlainArg(toks[3]) && PlainArg(toks[4])
    ensures forall i :: 0 <= i < |toks| ==> IsToken(toks[i], Splitters) && |toks[i]| < TempBufferSize
    ensures !EndsWith(toks[4], '&') && !EndsWith(toks[4], '?')
    ensures PipesFollowed(toks)
    ensures Stage(toks, false, false) ==
      Command(toks[0], [toks[1]], None, None, None, false, false,
        Some(Command(toks[3], [toks[4]], None, None, None, false, false, None)))
  {
    PlainToken(toks[0]);
    PlainToken(toks[1]);
    PlainToken(toks[3]);
    PlainToken(toks[4]);
    assert IsToken("|", Splitters);
    FindPipeAt(toks, 1, 2);
    NameAndArgument(toks[3..]);
    NameAndArgument(toks[..2]);
    assert toks[..2][1..2] == toks[1..2];
    StageSplit(toks, 2, false, false);
  }

  /** A trailing `&` (`sleep 5 &`) sets background, and the `&` token is not an argument. */
  lemma BackgroundExample(line: string, name: string, arg: string)
    requires PlainArg(name) && PlainArg(arg)
    requires line == Join([name, arg, "&"], ' ')
    ensures ParseDefined(line)
    ensures Parse(line) == Command(name, [arg], None, None, None, true, false, None)
  {
    var toks := [name, arg, "&"];
    BackgroundStage(toks);
    LineOfTokens(line, toks);
  }

  /** The tokens of such a line: a name, a plain word and the `&` marker. */
  lemma BackgroundStage(toks: seq<string>)
    requires |toks| == 3 && PlainArg(toks[0]) && PlainArg(toks[1]) && toks[2] == "&"
    ensures forall i :: 0 <= i < |toks| ==> IsToken(toks[i], Splitters) && |toks[i]| < TempBufferSize
    ensures EndsWith(toks[2], '&') && !EndsWith(toks[2], '?')
    ensures PipesFollowed(toks)
    ensures Stage(toks, true, false) == Command(toks[0], [toks[1]], None, None, None, true, false, None)
  {
    PlainToken(toks[0]);
    PlainToken(toks[1]);
    assert IsToken("&", Splitters);
    NameAndTwo(toks, true, false);
    OneToken("&");
  }

  /** A trailing `?` (`ls -l?`) sets auto_complete, and the `?` stays in the last argument. */
  lemma AutoCompleteExample(line: string, name: string, arg: string)
    requires PlainArg(name) && PlainArg(arg) && |arg| + 1 < TempBufferSize
    requires line == Join([name, arg + "?"], ' ')
    ensures ParseDefined(line)
    ensures Parse(line) == Command(name, [arg + "?"], None, None, None, false, true, None)
  {
    var toks := [name, arg + "?"];
    AutoCompleteStage(toks, arg);
    LineOfTokens(line, toks);
  }

  /** The tokens of such a line: a name and a plain word with `?` appended. */
  lemma AutoCompleteStage(toks: seq<string>, arg: string)
    requires PlainArg(arg) && |arg| + 1 < TempBufferSize
    requires |toks| == 2 && PlainArg(toks[0]) && toks[1] == arg + "?"
    ensures forall i :: 0 <= i < |toks| ==> IsToken(toks[i], Splitters) && |toks[i]| < TempBufferSize
    ensures !EndsWith(toks[1], '&') && EndsWith(toks[1], '?')
    ensures PipesFollowed(toks)
    ensures Stage(toks, false, true) == Command(toks[0], [toks[1]], None, None, None, false, true, None)
  {
    var last := toks[1];
    PlainToken(toks[0]);
    PlainToken(arg);
    assert last[0] == arg[0] && last[|last| - 1] == '?';
    assert IsToken(last, Splitters) by {
      assert forall i :: 0 <= i < |arg| ==> last[i] == arg[i];
    }
    NameAndArgument(toks);
  }

  /**
   * Quotes do not group words (`echo "a b"`): strtok splits inside the
   * quotes, so the arguments are `"a` and `b"`, each kept with its quote.
   */
  lemma QuotesDoNotGroup(line: string, name: string, a: string, b: string)
    requires PlainArg(name) && PlainArg(a) && PlainArg(b)
    requires a[|a| - 1] != '"' && b[0] != '"' && |a| + 1 < TempBufferSize && |b| + 1 < TempBufferSize
    requires line == Join([name, "\"" + a, b + "\""], ' ')
    ensures ParseDefined(line)
    ensures Parse(line) == Command(name, ["\"" + a, b + "\""], None, None, None, false, false, None)
  {
    var toks := [name, "\"" + a, b + "\""];
    QuotesSplitStage(toks, a, b);
    LineOfTokens(line, toks);
  }

  /** The tokens of such a line: a name, then two words that each carry one quote. */
  lemma QuotesSplitStage(toks: seq<string>, a: string, b: string)
    requires PlainArg(a) && PlainArg(b)
    requires a[|a| - 1] != '"' && b[0] != '"' && |a| + 1 < TempBufferSize && |b| + 1 < TempBufferSize
    requires |toks| == 3 && PlainArg(toks[0]) && toks[1] == "\"" + a && toks[2] == b + "\""
    ensures forall i :: 0 <= i < |toks| ==> IsToken(toks[i], Splitters) && |toks[i]| < TempBufferSize
    ensures !EndsWith(toks[2], '&') && !EndsWith(toks[2], '?')
    ensures PipesFollowed(toks)
    ensures Stage(toks, false, false) == Command(toks[0], [toks[1], toks[2]], None, None, None, false, false, None)
  {
    PlainToken(toks[0]);
    QuotedHalves(a, b);
    NameAndTwo(toks, false, false);
    OneToken(toks[1]);
    OneToken(toks[2]);
  }

  /** `"a` and `b"` are tokens that are stored as written: neither is wrapped in a matching pair. */
  lemma QuotedHalves(a: string, b: string)
    requires PlainArg(a) && PlainArg(b)
    requires a[|a| - 1] != '"' && b[0] != '"' && |a| + 1 < TempBufferSize && |b| + 1 < TempBufferSize
    ensures var x, y := "\"" + a, b + "\"";
      && IsToken(x, Splitters) && IsToken(y, Splitters) && IsArgument(x) && IsArgument(y)
      && !IsQuoted(x) && !IsQuoted(y) && x != "|" && y != "|"
      && !EndsWith(y, '&') && !EndsWith(y, '?')
  {
    var x, y := "\"" + a, b + "\"";
    PlainToken(a);
    PlainToken(b);
    assert x[|x| - 1] == a[|a| - 1] && y[0] == b[0];
    assert IsToken(x, Splitters) by {
      assert forall i :: 1 <= i < |x| ==> x[i] == a[i - 1];
    }
    assert IsToken(y, Splitters) by {
      assert forall i :: 0 <= i < |b| ==> y[i] == b[i];
    }
  }

  /** One quoted word loses its quotes; a token of two quote characters keeps them. */
  lemma QuoteStripping()
    ensures Unquote("\"hi\"") == "hi" && Unquote("'hi'") == "hi"
    ensures Unquote("\"\"") == "\"\"" && Unquote("\"a'") == "\"a'"
  {
    assert IsQuoted("\"hi\"") && IsQuoted("'hi'");
    assert "\"hi\""[1..3] == "hi" && "'hi'"[1..3] == "hi";
  }

  /** The tokens of `cat >a >b`: the later output redirect replaces the earlier one. */
  lemma LastRedirectWins(toks: seq<string>)
    requires toks == ["cat", ">a", ">b"]
    ensures Stage(toks, false, false) == Command("cat", [], None, Some("b"), None, false, false, None)
  {
    NameAndTwo(toks, false, false);
    assert toks[1] == ">" + "a" && toks[2] == ">" + "b";
    OneRedirect(">", "a", Output);
    OneRedirect(">", "b", Output);
  }

  /** The tokens of `a | | b`: the second `|` is read as the name of the second stage. */
  lemma DoublePipeStage(toks: seq<string>)
    requires toks == ["a", "|", "|", "b"]
    ensures Stage(toks, false, false) ==
      Command("a", [], None, None, None, false, false,
        Some(Command("|", ["b"], None, None, None, false, false, None)))
  {
    FindPipeAt(toks, 1, 1);
    assert toks[1..1] == [];
    NameAndArgument(toks[2..]);
    StageSplit(toks, 1, false, false);
  }

  // ---------------------------------------------------------------------
  // Stage count

  /** No stage starts with a `|` token: the line does not, and no `|` follows a `|`. */
  predicate NoEmptyStage(toks: seq<string>)
  {
    && (toks != [] ==> toks[0] != "|")
    && forall j :: 0 <= j < |toks| - 1 && toks[j] == "|" ==> toks[j + 1] != "|"
  }

  /** When no stage is named `|`, there is one stage per `|` token plus one. */
  lemma {:induction false} StageCount(toks: seq<string>, background: bool, autoComplete: bool)
    requires PipesFollowed(toks) && NoEmptyStage(toks)
    ensures |Stages(Stage(toks, background, autoComplete))| == 1 + multiset(toks)["|"]
    decreases |toks|
  {
    var e := StageEnd(toks);
    assert toks == toks[..e] + toks[e..];
    NoPipeBefore(toks, e);
    if e < |toks| {
      var tail := toks[e + 1..];
      assert toks[e..] == ["|"] + tail;
      TailNoEmpty(toks, e);
      StageCount(tail, background, autoComplete);
      assert multiset(toks)["|"] == multiset(toks[..e])["|"] + 1 + multiset(tail)["|"];
    } else {
      assert toks[e..] == [];
    }
  }

  /** The first stage's tokens hold no `|`. */
  lemma NoPipeBefore(toks: seq<string>, e: nat)
    requires toks != [] && toks[0] != "|" && e == StageEnd(toks)
    ensures multiset(toks[..e])["|"] == 0
  {
    assert "|" !in toks[..e] by {
      forall j | 0 <= j < e ensures toks[..e][j] != "|" {
        assert toks[..e][j] == toks[j];
      }
    }
  }

  /** After the `|` that ends a stage with no empty stage, the rest has no empty stage either. */
  lemma TailNoEmpty(toks: seq<string>, e: nat)
    requires NoEmptyStage(toks) && e + 1 < |toks| && toks[e] == "|"
    ensures NoEmptyStage(toks[e + 1..])
  {
    var tail := toks[e + 1..];
    assert tail[0] == toks[e + 1];
    forall j | 0 <= j < |tail| - 1 && tail[j] == "|" ensures tail[j + 1] != "|" {
      assert tail[j] == toks[e + 1 + j] && tail[j + 1] == toks[e + 1 + j + 1];
    }
  }

  // ---------------------------------------------------------------------
  // A blank line

  /**
   * The lines the code as written handles: besides fitting temp_buf and
   * ending in no `|`, the line must hold a token, because strlen is applied
   * to strtok's result before it is checked for NULL.
   */
  predicate ParseDefinedAsWritten(line: string)
  {
    ParseDefined(line) && Tokens(Trim(line), Splitters) != []
  }

  /** A blank line is outside what the code as written handles; the corrected parse gives a stage with no name. */
  lemma BlankLine(line: string)
    requires Tokens(Trim(line), Splitters) == []
    ensures !ParseDefinedAsWritten(line)
    ensures ParseDefined(line) && Parse(line).name == "" && |Stages(Parse(line))| == 1
  {
  }

  /** The empty line, as one that reaches the parser after the newline is stripped. */
  lemma EmptyLineParse()
    ensures !ParseDefinedAsWritten("")
    ensures ParseDefined("") && Parse("") == EmptyCommand
  {
    assert Trim("") == "";
  }
}
