/**
 * process_command up to the exec: the checks that settle a command in the
 * shell itself, the argument vector execv receives, and the PATH
 * directories the executable is looked up in.
 */
module Exec {
  import opened Wrappers
  import opened Tokenizer
  import opened CommandModel
  import opened Parser

  /** The return codes of prompt and process_command. */
  const Success := 0
  const ExitCode := 1

  /** What process_command does with a command before any fork. */
  datatype Dispatch =
    | Skip                      // empty name: SUCCESS
    | Exit                      // `exit`: EXIT, the main loop stops
    | ChangeDir(dir: string)    // `cd` with an argument: chdir in the shell, SUCCESS
    | Fork                      // everything else, `cd` with no argument included

  /** The strcmp tests at the top of process_command, in their order. */
  function Decide(c: Command): (d: Dispatch)
    ensures d == Skip <==> c.name == ""
    ensures d == Exit <==> c.name == "exit"
    ensures d.ChangeDir? <==> c.name == "cd" && |c.args| > 0
    ensures d.ChangeDir? ==> d.dir == c.args[0]
    ensures d == Fork <==> c.name !in {"", "exit"} && (c.name == "cd" ==> c.args == [])
  {
    if c.name == "" then Skip
    else if c.name == "exit" then Exit
    else if c.name == "cd" && |c.args| > 0 then ChangeDir(c.args[0])
    else Fork
  }

  /** The code process_command returns for a command settled in the shell. */
  function ShellCode(d: Dispatch): (code: int)
    requires !d.Fork?
    ensures code == ExitCode <==> d == Exit
    ensures code == Success || code == ExitCode
  {
    if d == Exit then ExitCode else Success
  }

  /**
   * Dispatch reads a parsed line by its first word only: a blank line is
   * skipped, a first word `exit` ends the shell, `cd` stays in the shell or
   * forks, and any other first word forks.
   */
  lemma DispatchOfLine(line: string)
    requires ParseDefined(line)
    ensures Decide(Parse(line)) == Skip <==> Tokens(Trim(line), Splitters) == []
    ensures Decide(Parse(line)) == Exit <==>
      Tokens(Trim(line), Splitters) != [] && Tokens(Trim(line), Splitters)[0] == "exit"
    ensures Decide(Parse(line)).ChangeDir? ==>
      Tokens(Trim(line), Splitters) != [] && Tokens(Trim(line), Splitters)[0] == "cd"
    ensures Tokens(Trim(line), Splitters) != [] && Tokens(Trim(line), Splitters)[0] !in {"exit", "cd"} ==>
      Decide(Parse(line)) == Fork
  {
    var toks := Tokens(Trim(line), Splitters);
    if toks != [] {
      assert toks[0] in toks;
      assert Parse(line).name == toks[0];
    }
  }

  /** `cd` alone has no argument, so it is not settled in the shell: it forks. */
  lemma CdAloneForks(line: string)
    requires line == "cd"
    ensures ParseDefined(line) && Decide(Parse(line)) == Fork
  {
    var toks := ["cd"];
    assert line == Join(toks, ' ');
    assert IsToken("cd", Splitters);
    TokensOfJoin(toks, ' ', Splitters);
    assert toks[1..] == [];
    assert Stage(toks, false, false).args == [];
  }

  // ---------------------------------------------------------------------
  // The argument vector

  /** The strings execv reads from an argument vector: those before the first NULL. */
  function UntilNull(v: seq<Option<string>>): seq<string>
  {
    if v == [] || v[0].None? then [] else [v[0].value] + UntilNull(v[1..])
  }

  /**
   * The child's argument vector: args grown by two with realloc, shifted
   * one place right in place, the name copied in front and NULL at the end.
   */
  method BuildArgv(name: string, args: seq<string>) returns (argv: array<Option<string>>)
    ensures fresh(argv)
    ensures argv.Length == |args| + 2
    ensures argv[0] == Some(name) && argv[|args| + 1] == None
    ensures forall i :: 0 <= i < |args| ==> argv[i + 1] == Some(args[i])
  {
    var n := |args|;
    // realloc keeps the old pointers and adds two unset slots
    argv := new Option<string>[n + 2](j => if 0 <= j < n then Some(args[j]) else None);
    var i := n;
    while i > 0
      invariant 0 <= i <= n
      invariant forall j :: 0 <= j < i ==> argv[j] == Some(args[j])
      invariant forall j :: i < j <= n ==> argv[j] == Some(args[j - 1])
    {
      argv[i] := argv[i - 1];
      i := i - 1;
    }
    argv[0] := Some(name);
    argv[n + 1] := None;
  }

  /** execv sees the name and then the arguments, in order. */
  lemma {:induction false} ArgvStrings(v: seq<Option<string>>, name: string, args: seq<string>)
    requires |v| == |args| + 2
    requires v[0] == Some(name) && v[|args| + 1] == None
    requires forall i :: 0 <= i < |args| ==> v[i + 1] == Some(args[i])
    ensures UntilNull(v) == [name] + args
  {
    ArgsBeforeNull(v[1..], args);
  }

  lemma {:induction false} ArgsBeforeNull(v: seq<Option<string>>, args: seq<string>)
    requires |v| == |args| + 1 && v[|args|] == None
    requires forall i :: 0 <= i < |args| ==> v[i] == Some(args[i])
    ensures UntilNull(v) == args
    decreases |args|
  {
    if args != [] {
      ArgsBeforeNull(v[1..], args[1..]);
    }
  }

  // ---------------------------------------------------------------------
  // The PATH walk

  /** Size of the calloc'd path buffer. */
  const PathBufferSize := 200

  /** dir/name for each directory, in order. */
  function Paths(dirs: seq<string>, name: string): (r: seq<string>)
    ensures |r| == |dirs|
  {
    if dirs == [] then [] else [dirs[0] + "/" + name] + Paths(dirs[1..], name)
  }

  /** The i-th path is the i-th directory, a slash and the name. */
  lemma {:induction false} PathsShape(dirs: seq<string>, name: string)
    ensures forall i :: 0 <= i < |dirs| ==> Paths(dirs, name)[i] == dirs[i] + "/" + name
  {
    if dirs != [] {
      PathsShape(dirs[1..], name);
      assert forall i :: 1 <= i < |dirs| ==> Paths(dirs, name)[i] == Paths(dirs[1..], name)[i - 1];
    }
  }

  /** The paths execv is tried on, in order: each non-empty PATH field, a slash, the name. */
  function Candidates(path: string, name: string): (r: seq<string>)
    ensures |r| == |Tokens(path, PathSeparators)|
    ensures forall i :: 0 <= i < |r| ==> r[i] == Tokens(path, PathSeparators)[i] + "/" + name
  {
    PathsShape(Tokens(path, PathSeparators), name);
    Paths(Tokens(path, PathSeparators), name)
  }

  /**
   * The candidates the loop builds, in order: each one up to and including
   * the first that execv runs. Those after it are never built.
   */
  function Tried(cands: seq<string>, runnable: set<string>): seq<string>
    decreases |cands|
  {
    if cands == [] then []
    else if cands[0] in runnable then [cands[0]]
    else [cands[0]] + Tried(cands[1..], runnable)
  }

  /** The candidate execv runs: the first one that is runnable, if any. */
  function Found(cands: seq<string>, runnable: set<string>): Option<string>
    decreases |cands|
  {
    if cands == [] then None
    else if cands[0] in runnable then Some(cands[0])
    else Found(cands[1..], runnable)
  }

  /** Every candidate the loop builds fits the path buffer with its NUL. */
  predicate TriedFit(cands: seq<string>, runnable: set<string>)
  {
    forall p | p in Tried(cands, runnable) :: |p| < PathBufferSize
  }

  /**
   * The tried candidates are a prefix of all of them; none but the last
   * runs. When one runs it is the last tried; when none does, every
   * candidate was tried.
   */
  lemma {:induction false} TriedMeans(cands: seq<string>, runnable: set<string>)
    ensures Tried(cands, runnable) <= cands
    ensures forall i :: 0 <= i < |Tried(cands, runnable)| - 1 ==> Tried(cands, runnable)[i] !in runnable
    ensures Found(cands, runnable).None? ==>
      Tried(cands, runnable) == cands && forall p | p in cands :: p !in runnable
    ensures Found(cands, runnable).Some? ==>
      var t := Tried(cands, runnable);
      t != [] && Found(cands, runnable).value == t[|t| - 1] && t[|t| - 1] in runnable
    decreases |cands|
  {
    if cands != [] && cands[0] !in runnable {
      var tail := cands[1..];
      TriedMeans(tail, runnable);
      var t := Tried(cands, runnable);
      assert t == [cands[0]] + Tried(tail, runnable);
      assert forall i :: 1 <= i < |t| ==> t[i] == Tried(tail, runnable)[i - 1];
      assert forall p | p in cands :: p == cands[0] || p in tail;
      assert cands == [cands[0]] + tail;
    }
  }

  /**
   * The strtok loop over PATH: build dir/name in the path buffer and try
   * execv on it. The executables execv would run are a parameter; the loop
   * stops at the first candidate among them, as a successful execv does.
   */
  method FindExecutable(path: string, name: string, runnable: set<string>)
    returns (tried: seq<string>, found: Option<string>)
    requires TriedFit(Candidates(path, name), runnable)
    ensures tried == Tried(Candidates(path, name), runnable)
    ensures found == Found(Candidates(path, name), runnable)
  {
    ghost var all := Candidates(path, name);
    ghost var rest := all;
    tried := [];
    var pos := 0;
    assert path[0..] == path;
    while true
      invariant pos <= |path|
      invariant rest == Candidates(path[pos..], name)
      invariant tried + Tried(rest, runnable) == Tried(all, runnable)
      invariant Found(rest, runnable) == Found(all, runnable)
      invariant TriedFit(rest, runnable)
      decreases |path| - pos
    {
      var span, next := NextToken(path, pos, PathSeparators);
      if span.None? {
        return tried, None;
      }
      var dir := path[span.value.start..span.value.end];
      var candidate := dir + "/" + name;
      NextCandidate(path, pos, next, dir, name, runnable);
      // strcpy, strcat "/", strcat name: within the path buffer
      assert |candidate| < PathBufferSize;
      rest := Candidates(path[next..], name);
      tried := tried + [candidate];
      if candidate in runnable {
        return tried, Some(candidate);
      }
      pos := next;
    }
  }

  /** The candidate built from the next PATH field: tried next, fits, and the walk goes on after it unless it runs. */
  lemma NextCandidate(path: string, pos: nat, next: nat, dir: string, name: string, runnable: set<string>)
    requires pos <= next <= |path|
    requires Tokens(path[pos..], PathSeparators) == [dir] + Tokens(path[next..], PathSeparators)
    requires TriedFit(Candidates(path[pos..], name), runnable)
    ensures var c, here, after := dir + "/" + name, Candidates(path[pos..], name), Candidates(path[next..], name);
      && |c| < PathBufferSize
      && (c in runnable ==> Tried(here, runnable) == [c] && Found(here, runnable) == Some(c))
      && (c !in runnable ==>
           && Tried(here, runnable) == [c] + Tried(after, runnable)
           && Found(here, runnable) == Found(after, runnable)
           && TriedFit(after, runnable))
  {
    var c := dir + "/" + name;
    var after := Candidates(path[next..], name);
    PathStep(c, dir, Tokens(path[next..], PathSeparators), name);
    var here := [c] + after;
    assert here[0] == c && here[1..] == after;
    assert c in Tried(here, runnable);
    if c !in runnable {
      assert forall p | p in Tried(after, runnable) :: p in Tried(here, runnable);
    }
  }

  /** The next directory gives the next candidate. */
  lemma PathStep(candidate: string, dir: string, rest: seq<string>, name: string)
    requires candidate == dir + "/" + name
    ensures Paths([dir] + rest, name) == [candidate] + Paths(rest, name)
  {
    assert ([dir] + rest)[1..] == rest;
  }

  /** Once a candidate runs, the PATH fields after it may be of any length: they are never built. */
  lemma FirstDirRuns(dir: string, rest: string, name: string, runnable: set<string>)
    requires IsToken(dir, PathSeparators) && |dir| + 1 + |name| < PathBufferSize
    requires dir + "/" + name in runnable
    ensures TriedFit(Candidates(dir + ":" + rest, name), runnable)
  {
    var s := dir + ":" + rest;
    assert forall k :: 0 <= k < |dir| ==> s[k] == dir[k];
    TokenAt(s, 0, 0, |dir|, PathSeparators);
    assert s[0..] == s && s[..|dir|] == dir && s[|dir| + 1..] == rest;
    var toks := [dir] + Tokens(rest, PathSeparators);
    assert Tokens(s, PathSeparators) == toks;
    assert toks[1..] == Tokens(rest, PathSeparators);
    var cands := Candidates(s, name);
    assert cands[0] == dir + "/" + name;
    assert Tried(cands, runnable) == [dir + "/" + name];
  }

  /**
   * The directories of a PATH written out with `:` are its candidates'
   * directories, in order; empty fields add nothing.
   */
  lemma CandidatesOfJoin(dirs: seq<string>, name: string)
    requires forall d | d in dirs :: IsToken(d, PathSeparators)
    ensures |Candidates(Join(dirs, ':'), name)| == |dirs|
    ensures forall i :: 0 <= i < |dirs| ==> Candidates(Join(dirs, ':'), name)[i] == dirs[i] + "/" + name
  {
    TokensOfJoin(dirs, ':', PathSeparators);
  }

  /** Empty fields of PATH are skipped: `::` between two directories is one separator. */
  lemma EmptyFieldsSkipped(a: string, b: string, name: string)
    requires IsToken(a, PathSeparators) && IsToken(b, PathSeparators)
    ensures Candidates(a + "::" + b, name) == [a + "/" + name, b + "/" + name]
  {
    var s := a + "::" + b;
    TokenAt(s, 0, 0, |a|, PathSeparators);
    assert s[0..] == s;
    assert s[|a| + 1..] == ":" + b;
    SkipDelimiters(s[|a| + 1..], 0, 1, PathSeparators);
    assert s[|a| + 1..][0..] == s[|a| + 1..];
    assert s[|a| + 1..][1..] == b;
    TokensOfJoin([b], ':', PathSeparators);
    assert Join([b], ':') == b;
    assert s[..|a|] == a;
    assert Tokens(s, PathSeparators) == [a] + [b];
    assert [a] + [b] == [a, b];
    assert [a, b][1..] == [b];
    assert Paths([b], name) == [b + "/" + name];
  }
}
