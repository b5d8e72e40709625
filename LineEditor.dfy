/**
 * The key handling of prompt: a state machine over the key codes read from
 * the terminal, with the line buffer, its fill index, the escape-sequence
 * state and the one-line history kept in a static buffer.
 */
module LineEditor {

  /** Size of buf and of the static oldbuf. */
  const BufferSize := 4096
  /** The most characters buf holds before the terminating NUL: sizeof(buf) - 1. */
  const Capacity := BufferSize - 1

  const Nul: char := 0 as char
  const CtrlD: char := 4 as char
  const Tab: char := 9 as char
  const Escape: char := 27 as char
  const Delete: char := 127 as char

  /** multicode_state: 0, 1 after ESC, 2 after ESC `[`. */
  datatype Mode = Normal | SawEscape | SawBracket

  /** The editing state: buf[..index] and multicode_state. */
  datatype Editor = Editor(buf: string, mode: Mode)

  /** Where the loop starts: an empty buffer in state 0. */
  const Start := Editor([], Normal)

  /** The effect of one key: go on, end the line with buf[..index], or return EXIT. */
  datatype Step = Continue(next: Editor) | Finish(line: string) | Cancel

  /** What prompt ends with: an accepted line, EXIT from Ctrl-D, or still waiting for keys. */
  datatype Outcome = Accepted(line: string) | Cancelled | Pending(editor: Editor)

  /** How the key loop goes on after one key: `continue`, `break`, or `return EXIT`. */
  datatype Flow = Next | Done | Quit

  /** A C string: the characters before the first NUL. */
  function CString(s: string): (r: string)
    ensures |r| <= |s|
    ensures Nul !in r
  {
    if s == [] || s[0] == Nul then [] else [s[0]] + CString(s[1..])
  }

  /** The newline trim at the end of prompt. */
  function DropNewline(line: string): string
  {
    if line != [] && line[|line| - 1] == '\n' then line[..|line| - 1] else line
  }

  /** The text read into buf, as parse_command and strcpy see it: a final newline dropped, cut at the first NUL. */
  function Accept(line: string): string
  {
    CString(DropNewline(line))
  }

  /**
   * Store a key at buf[index++], then the capacity stop, the enter key and
   * Ctrl-D, in that order: the line goes on only while it has room and the
   * key is neither, and Ctrl-D cancels only a line with room.
   */
  function Store(e: Editor, c: char): (s: Step)
    ensures s.Continue? <==> |e.buf| + 1 < Capacity && c != '\n' && c != CtrlD
    ensures s.Continue? ==> s.next == Editor(e.buf + [c], Normal)
    ensures s.Finish? ==> s.line == e.buf + [c] && (|s.line| >= Capacity || c == '\n')
    ensures s.Cancel? <==> |e.buf| + 1 < Capacity && c == CtrlD
  {
    var b := e.buf + [c];
    if |b| >= Capacity then Finish(b)
    else if c == '\n' then Finish(b)
    else if c == CtrlD then Cancel
    else Continue(Editor(b, Normal))
  }

  /**
   * The up arrow: buf becomes the history and the state stays 2. A history
   * that fills the buffer ends the line, as storing a key that fills it does.
   */
  function Recall(history: string): (s: Step)
    ensures !s.Cancel?
    ensures s.Continue? ==> s.next == Editor(history, SawBracket) && |history| < Capacity
    ensures s.Finish? ==> s.line == history && |history| >= Capacity
  {
    if |history| >= Capacity then Finish(history) else Continue(Editor(history, SawBracket))
  }

  /**
   * One key, in the order prompt tests them. Only Ctrl-D cancels, and a
   * line ends only at Tab, at the enter key, or when the buffer is full.
   */
  function KeyStep(history: string, e: Editor, c: char): (s: Step)
    ensures s.Cancel? ==> c == CtrlD
    ensures s.Finish? ==> c == Tab || c == '\n' || |s.line| >= Capacity
    ensures c == Tab || c == '\n' ==> s.Finish?
  {
    if c == Tab then Finish(e.buf + ['?'])
    else if c == Delete then Continue(e.(buf := if e.buf == [] then [] else e.buf[..|e.buf| - 1]))
    else if c == Escape && e.mode == Normal then Continue(e.(mode := SawEscape))
    else if c == '[' && e.mode == SawEscape then Continue(e.(mode := SawBracket))
    else if c == 'A' && e.mode == SawBracket then Recall(history)
    else Store(e, c)
  }

  /**
   * prompt reading the keys from e on, with history in oldbuf. It waits
   * for more keys only when no Tab or enter key came, it cancels only on a
   * Ctrl-D, and an accepted line holds no NUL.
   */
  function Run(history: string, e: Editor, keys: seq<char>): (r: Outcome)
    ensures r.Pending? ==> Tab !in keys && '\n' !in keys
    ensures r.Cancelled? ==> CtrlD in keys
    ensures r.Accepted? ==> Nul !in r.line
    decreases |keys|
  {
    if keys == [] then Pending(e)
    else
      match KeyStep(history, e, keys[0])
      case Continue(n) => Run(history, n, keys[1..])
      case Finish(line) => Accepted(Accept(line))
      case Cancel => Cancelled
  }

  /** One key of the Run: what KeyStep does with keys[i], then the keys after it. */
  function After(history: string, s: Step, rest: seq<char>): Outcome
  {
    match s
    case Continue(n) => Run(history, n, rest)
    case Finish(line) => Accepted(Accept(line))
    case Cancel => Cancelled
  }

  lemma RunStep(history: string, e: Editor, keys: seq<char>, i: nat)
    requires i < |keys|
    ensures Run(history, e, keys[i..]) == After(history, KeyStep(history, e, keys[i]), keys[i + 1..])
  {
    assert keys[i..][1..] == keys[i + 1..];
  }

  // ---------------------------------------------------------------------
  // The capacity bound

  /** A state the loop can be in: the next key has room at buf[index] and the NUL after it. */
  predicate Roomy(e: Editor)
  {
    |e.buf| < Capacity
  }

  /** No key overflows buf: a state with room goes on to one with room or ends a line whose NUL fits. */
  lemma KeyStepBounded(history: string, e: Editor, c: char)
    requires Roomy(e) && |history| <= Capacity
    ensures KeyStep(history, e, c).Continue? ==> Roomy(KeyStep(history, e, c).next)
    ensures KeyStep(history, e, c).Finish? ==> |KeyStep(history, e, c).line| <= Capacity
  {
  }

  /** Every state the loop reaches has room, and every accepted line fits buf with its NUL. */
  lemma {:induction false} RunBounded(history: string, e: Editor, keys: seq<char>)
    requires Roomy(e) && |history| <= Capacity
    ensures Run(history, e, keys).Pending? ==> Roomy(Run(history, e, keys).editor)
    ensures Run(history, e, keys).Accepted? ==> |Run(history, e, keys).line| <= Capacity
    decreases |keys|
  {
    if keys != [] {
      KeyStepBounded(history, e, keys[0]);
      match KeyStep(history, e, keys[0])
      case Continue(n) => RunBounded(history, n, keys[1..]);
      case Finish(line) =>
      case Cancel =>
    }
  }

  /** Reading keys in two parts: the second part starts where the first left off, unless it ended the line. */
  lemma {:induction false} RunAppend(history: string, e: Editor, a: seq<char>, b: seq<char>)
    ensures Run(history, e, a + b) ==
      if Run(history, e, a).Pending? then Run(history, Run(history, e, a).editor, b) else Run(history, e, a)
    decreases |a|
  {
    if a == [] {
      assert a + b == b;
    } else {
      assert (a + b)[0] == a[0];
      assert (a + b)[1..] == a[1..] + b;
      match KeyStep(history, e, a[0])
      case Continue(n) => RunAppend(history, n, a[1..], b);
      case Finish(line) =>
      case Cancel =>
    }
  }

  // ---------------------------------------------------------------------
  // The key rules

  /** A key with no rule of its own in state 0: it is simply stored. */
  predicate PlainKey(c: char)
  {
    c != Tab && c != Delete && c != Escape && c != CtrlD && c != '\n'
  }

  /** Plain keys that leave room are stored in order in state 0. */
  lemma {:induction false} TypePlain(history: string, b: string, keys: seq<char>)
    requires forall i :: 0 <= i < |keys| ==> PlainKey(keys[i])
    requires |b| + |keys| < Capacity
    ensures Run(history, Editor(b, Normal), keys) == Pending(Editor(b + keys, Normal))
    decreases |keys|
  {
    if keys == [] {
      assert b + keys == b;
    } else {
      assert b + keys == (b + [keys[0]]) + keys[1..];
      TypePlain(history, b + [keys[0]], keys[1..]);
    }
  }

  /** Typing a line of plain keys and the enter key accepts that line, cut at a NUL if it holds one. */
  lemma TypedLine(history: string, keys: seq<char>)
    requires forall i :: 0 <= i < |keys| ==> PlainKey(keys[i])
    requires |keys| < Capacity
    ensures Run(history, Start, keys + ['\n']) == Accepted(CString(keys))
  {
    TypePlain(history, [], keys);
    assert [] + keys == keys;
    RunAppend(history, Start, keys, ['\n']);
    assert (keys + ['\n'])[..|keys|] == keys;
  }

  /** Plain keys that fill the buffer end the line without an enter key. */
  lemma CapacityStop(history: string, keys: seq<char>)
    requires forall i :: 0 <= i < |keys| ==> PlainKey(keys[i])
    requires |keys| == Capacity
    ensures Run(history, Start, keys) == Accepted(CString(keys))
  {
    var init := keys[..Capacity - 1];
    assert forall i :: 0 <= i < |init| ==> PlainKey(init[i]) by {
      forall i | 0 <= i < |init| ensures PlainKey(init[i]) {
        assert init[i] == keys[i];
      }
    }
    TypePlain(history, [], init);
    assert [] + init == init;
    assert keys == init + [keys[Capacity - 1]];
    RunAppend(history, Start, init, [keys[Capacity - 1]]);
  }

  /** Backspace takes back a stored key, and does nothing on an empty buffer. */
  lemma BackspaceUndoes(history: string, b: string, c: char)
    requires PlainKey(c) && |b| + 1 < Capacity
    ensures Run(history, Editor(b, Normal), [c, Delete]) == Pending(Editor(b, Normal))
    ensures Run(history, Editor([], Normal), [Delete]) == Pending(Editor([], Normal))
  {
    assert [c, Delete][1..] == [Delete];
    assert (b + [c])[..|b|] == b;
    assert Run(history, Editor(b + [c], Normal), [Delete]) == Pending(Editor(b, Normal));
    assert Run(history, Editor([], Normal), [Delete]) == Run(history, Editor([], Normal), []);
  }

  /** Backspace keeps the escape state: ESC, Backspace, `[`, `A` still recalls. */
  lemma BackspaceKeepsMode(history: string, b: string, keys: seq<char>)
    requires |history| < Capacity && keys == [Escape, Delete, '[', 'A']
    ensures Run(history, Editor(b, Normal), keys) == Pending(Editor(history, SawBracket))
  {
    var b' := if b == [] then [] else b[..|b| - 1];
    assert keys[0..] == keys && keys[4..] == [];
    RunStep(history, Editor(b, Normal), keys, 0);
    RunStep(history, Editor(b, SawEscape), keys, 1);
    RunStep(history, Editor(b', SawEscape), keys, 2);
    RunStep(history, Editor(b', SawBracket), keys, 3);
  }

  /** ESC `[` `A` replaces the buffer with the history and stays in state 2, so a further `A` recalls again. */
  lemma RecallRun(history: string, b: string, keys: seq<char>)
    requires |history| < Capacity && keys == [Escape, '[', 'A']
    ensures Run(history, Editor(b, Normal), keys) == Pending(Editor(history, SawBracket))
    ensures Run(history, Editor(b, SawBracket), keys[2..]) == Pending(Editor(history, SawBracket))
  {
    assert keys[0..] == keys && keys[3..] == [];
    RunStep(history, Editor(b, Normal), keys, 0);
    RunStep(history, Editor(b, SawEscape), keys, 1);
    RunStep(history, Editor(b, SawBracket), keys, 2);
  }

  /** Recalling the history and pressing enter accepts the history again. */
  lemma RecallReaccepts(history: string, keys: seq<char>)
    requires |history| < Capacity && Nul !in history && keys == [Escape, '[', 'A', '\n']
    ensures Run(history, Start, keys) == Accepted(history)
  {
    var recall, enter := keys[..3], keys[3..];
    assert recall == [Escape, '[', 'A'] && enter == ['\n'] && recall + enter == keys;
    RecallRun(history, [], recall);
    RunAppend(history, Start, recall, enter);
    RunStep(history, Editor(history, SawBracket), enter, 0);
    assert enter[1..] == [];
    assert DropNewline(history + ['\n']) == history;
    CStringOfPlain(history);
  }

  /** A key that does not continue an escape sequence is stored, and the state goes back to 0. */
  lemma EscapeFallback(history: string, b: string, c: char)
    requires PlainKey(c) && c != '[' && |b| + 1 < Capacity
    ensures Run(history, Editor(b, Normal), [Escape, c]) == Pending(Editor(b + [c], Normal))
    ensures Run(history, Editor(b, SawEscape), [Escape]) == Pending(Editor(b + [Escape], Normal))
  {
    assert [Escape, c][1..] == [c];
    assert Run(history, Editor(b, SawEscape), [c]) == Pending(Editor(b + [c], Normal));
    assert Run(history, Editor(b, SawEscape), [Escape]) == Run(history, Editor(b + [Escape], Normal), []);
  }

  /** Tab appends `?` and ends the line, whatever follows. */
  lemma TabEnds(history: string, e: Editor, rest: seq<char>)
    ensures Run(history, e, [Tab] + rest) == Accepted(CString(e.buf + ['?']))
  {
    assert ([Tab] + rest)[0] == Tab;
    var l := e.buf + ['?'];
    assert l[|l| - 1] == '?';
  }

  /** Ctrl-D returns EXIT, unless it is the key that fills the buffer: then the line is accepted with it. */
  lemma CtrlDCancels(history: string, e: Editor, rest: seq<char>)
    ensures |e.buf| + 1 < Capacity ==> Run(history, e, [CtrlD] + rest) == Cancelled
    ensures |e.buf| + 1 == Capacity ==> Run(history, e, [CtrlD] + rest) == Accepted(CString(e.buf + [CtrlD]))
  {
    assert ([CtrlD] + rest)[0] == CtrlD;
    var l := e.buf + [CtrlD];
    assert l[|l| - 1] == CtrlD;
  }

  /** A C string of characters that are not NUL is the whole string. */
  lemma {:induction false} CStringOfPlain(s: string)
    requires Nul !in s
    ensures CString(s) == s
  {
    if s != [] {
      assert s[0] in s;
      assert forall x | x in s[1..] :: x in s;
      CStringOfPlain(s[1..]);
    }
  }

  /** A C string ends at the first NUL, or with the string. */
  lemma {:induction false} CStringAt(s: string, k: nat)
    requires k <= |s| && (k < |s| ==> s[k] == Nul)
    requires forall j :: 0 <= j < k ==> s[j] != Nul
    ensures CString(s) == s[..k]
  {
    if k > 0 {
      CStringAt(s[1..], k - 1);
      assert s[..k] == [s[0]] + s[1..][..k - 1];
    }
  }

  /** In a buffer that holds a NUL, the C string is a proper prefix and the NUL follows it. */
  lemma {:induction false} CStringPrefix(s: string)
    requires Nul in s
    ensures |CString(s)| < |s| && s[|CString(s)|] == Nul
    ensures CString(s) == s[..|CString(s)|]
  {
    if s[0] != Nul {
      assert Nul in s[1..] by {
        var k :| 0 <= k < |s| && s[k] == Nul;
        assert s[1..][k - 1] == Nul;
      }
      CStringPrefix(s[1..]);
    }
  }

  // ---------------------------------------------------------------------
  // The overflow of the code as written

  /** Recall as written: the buffer becomes the history and the loop goes on, with no capacity test. */
  function KeyStepAsWritten(history: string, e: Editor, c: char): (s: Step)
    ensures s != KeyStep(history, e, c) ==> c == 'A' && e.mode == SawBracket && |history| >= Capacity
  {
    if c == 'A' && e.mode == SawBracket then Continue(Editor(history, SawBracket))
    else KeyStep(history, e, c)
  }

  /**
   * A history of Capacity characters, recalled, is followed by a key: the
   * code as written stores the key at buf[4095] and then writes the NUL at
   * buf[4096], one past the end of buf. The corrected recall ends the line.
   */
  lemma RecallOverflowAsWritten(history: string, b: string, c: char)
    requires |history| == Capacity && Nul !in history && history[|history| - 1] != '\n'
    requires PlainKey(c) && c != 'A'
    ensures KeyStepAsWritten(history, Editor(b, SawBracket), 'A') == Continue(Editor(history, SawBracket))
    ensures KeyStepAsWritten(history, Editor(history, SawBracket), c) == Finish(history + [c])
    ensures |history + [c]| == BufferSize
    ensures Run(history, Editor(b, SawBracket), ['A']) == Accepted(history)
  {
    CStringOfPlain(history);
  }

  /** Such a history arises: Capacity plain keys end a line of Capacity characters. */
  lemma FullHistoryReachable(history: string, keys: seq<char>)
    requires forall i :: 0 <= i < |keys| ==> PlainKey(keys[i]) && keys[i] != Nul
    requires |keys| == Capacity
    ensures Run(history, Start, keys) == Accepted(keys) && |keys| == Capacity
  {
    CapacityStop(history, keys);
    assert Nul !in keys by {
      forall i | 0 <= i < |keys| ensures keys[i] != Nul {
      }
    }
    CStringOfPlain(keys);
  }

  // ---------------------------------------------------------------------
  // prompt itself

  /**
   * prompt with its static oldbuf: the history survives from one call to
   * the next. The keys getchar returns are a parameter.
   */
  class Prompter {
    var oldbuf: array<char>

    /** oldbuf is the 4096-byte static buffer and holds a C string. */
    predicate Valid()
      reads this, oldbuf
    {
      oldbuf.Length == BufferSize && Nul in oldbuf[..]
    }

    /** The line the up arrow recalls. */
    function History(): string
      reads this, oldbuf
      requires Valid()
    {
      CString(oldbuf[..])
    }

    /** A static buffer starts zeroed: the history is empty. */
    constructor ()
      ensures Valid() && History() == []
    {
      var zeroed := new char[BufferSize](_ => Nul);
      assert zeroed[..][0] == Nul;
      oldbuf := zeroed;
    }

    /**
     * Read keys until a line ends, as prompt does, recording it in oldbuf.
     * The outcome is the key state machine run on the keys from an empty
     * buffer; an accepted line becomes the history, and otherwise the
     * history stays.
     */
    method Prompt(keys: seq<char>) returns (r: Outcome)
      requires Valid()
      modifies oldbuf
      ensures Valid()
      ensures r == Run(old(History()), Start, keys)
      ensures r.Accepted? ==> History() == r.line
      ensures !r.Accepted? ==> History() == old(History())
    {
      ghost var history := History();
      var buf := new char[BufferSize];
      var index := 0;
      var multicode := Normal;
      var i := 0;
      buf[0] := Nul;
      while true
        invariant 0 <= index < Capacity && i <= |keys|
        invariant Run(history, Start, keys) == Run(history, Editor(buf[..index], multicode), keys[i..])
        modifies buf
        decreases |keys| - i
      {
        if i == |keys| {
          // the model's key sequence is exhausted while getchar would wait
          return Pending(Editor(buf[..index], multicode));
        }
        RunStep(history, Editor(buf[..index], multicode), keys, i);
        var flow;
        flow, index, multicode := HandleKey(buf, index, multicode, keys[i]);
        i := i + 1;
        if flow == Quit {
          return Cancelled;
        }
        if flow == Done {
          break;
        }
      }
      var n := Terminate(buf, index);
      var line := StrCopy(buf, n);
      r := Accepted(line);
    }

    /** One key of the loop in prompt: `continue` (Next), `break` (Done) or `return EXIT` (Quit). */
    method HandleKey(buf: array<char>, index: nat, multicode: Mode, c: char)
      returns (flow: Flow, index': nat, multicode': Mode)
      requires Valid() && buf.Length == BufferSize && buf != oldbuf && index < Capacity
      modifies buf
      ensures flow == Next ==>
        index' < Capacity && KeyStep(History(), Editor(old(buf[..index]), multicode), c) == Continue(Editor(buf[..index'], multicode'))
      ensures flow == Done ==>
        index' <= Capacity && KeyStep(History(), Editor(old(buf[..index]), multicode), c) == Finish(buf[..index'])
      ensures flow == Quit ==> KeyStep(History(), Editor(old(buf[..index]), multicode), c) == Cancel
    {
      multicode' := multicode;
      index' := index;
      if c == Tab {
        buf[index'] := '?';
        return Done, index' + 1, multicode';
      }
      if c == Delete {
        if index' > 0 {
          assert buf[..index' - 1] == buf[..index'][..index' - 1];
          index' := index' - 1;
        }
        return Next, index', multicode';
      }
      if c == Escape && multicode' == Normal {
        return Next, index', SawEscape;
      }
      if c == '[' && multicode' == SawEscape {
        return Next, index', SawBracket;
      }
      if c == 'A' && multicode' == SawBracket {
        index' := RecallInto(buf, index');
        // the recalled line may fill buf: end the line as a stored key would
        if index' >= Capacity {
          return Done, index', multicode';
        }
        return Next, index', multicode';
      } else {
        multicode' := Normal;
      }
      buf[index'] := c;
      index' := index' + 1;
      if index' >= Capacity {
        return Done, index', multicode';
      }
      if c == '\n' {
        return Done, index', multicode';
      }
      if c == CtrlD {
        return Quit, index', multicode';
      }
      flow := Next;
    }

    /** The up arrow: erase buf, then copy oldbuf into it up to its NUL. */
    method RecallInto(buf: array<char>, index: nat) returns (n: nat)
      requires Valid() && buf.Length == BufferSize && buf != oldbuf
      modifies buf
      ensures n == |History()| && n <= Capacity && buf[..n] == History()
    {
      var index := index;
      while index > 0
      {
        // prompt_backspace erases the echoed character
        index := index - 1;
      }
      ghost var h := History();
      CStringPrefix(oldbuf[..]);
      var i := 0;
      while oldbuf[i] != Nul
        invariant 0 <= i <= |h|
        invariant buf[..i] == h[..i]
        modifies buf
        decreases |h| - i
      {
        buf[i] := oldbuf[i];
        i := i + 1;
      }
      n := i;
    }

    /** The newline trim and the terminating NUL at the end of prompt. */
    method Terminate(buf: array<char>, index: nat) returns (n: nat)
      requires buf.Length == BufferSize && index <= Capacity
      modifies buf
      ensures n < buf.Length && buf[n] == Nul
      ensures buf[..n] == DropNewline(old(buf[..index]))
    {
      n := index;
      if n > 0 && buf[n - 1] == '\n' {
        n := n - 1;
      }
      buf[n] := Nul;
    }

    /** strcpy(oldbuf, buf): the history becomes buf as a C string. */
    method StrCopy(buf: array<char>, ghost n: nat) returns (line: string)
      requires oldbuf.Length == BufferSize && buf.Length == BufferSize && buf != oldbuf
      requires n < buf.Length && buf[n] == Nul
      modifies oldbuf
      ensures Valid() && History() == line
      ensures line == CString(buf[..n])
    {
      var k := 0;
      while buf[k] != Nul
        invariant 0 <= k <= n
        invariant forall j :: 0 <= j < k ==> buf[j] != Nul && oldbuf[j] == buf[j]
        modifies oldbuf
        decreases n - k
      {
        oldbuf[k] := buf[k];
        k := k + 1;
      }
      oldbuf[k] := Nul;
      CStringAt(oldbuf[..], k);
      CStringAt(buf[..n], k);
      assert oldbuf[..][..k] == buf[..k];
      line := buf[..k];
    }
  }
}
