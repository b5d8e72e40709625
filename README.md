# seashell: a verified model of the shell's text and state logic

seashell is a small interactive Unix shell written in C (`seashell.c`). This
project models the parts of it that are plain computation and proves what
they do.

The parser is `parse_command`. It trims the line, reads the background
marker `&` and the auto-complete marker `?` from its last character, splits
it at spaces and tabs with `strtok`, and sorts each token into one of:

- a pipe;
- a marker;
- a redirect (`<`, `>`, `>>`);
- an argument, with matching outer quotes removed.

The text after a `|` is parsed recursively into the `next` stage.

The line editor `prompt` is a key state machine. Its state is:

- a 4096-byte buffer and its fill index;
- the escape-sequence state: 0, 1 after ESC, 2 after ESC `[`;
- the static one-line history `oldbuf`, which the up arrow recalls.

The model also covers what `process_command` does before and around the
`fork`:

- the checks for the empty name, `exit` and `cd`;
- the argument vector handed to `execv`;
- the walk over the `PATH` directories.

Four helpers of the builtins are modelled too:

- `toLower`;
- the byte mode of `kdiff`;
- the filter of `shortdir del`;
- the first-occurrence rule of `unique`, with `isDuplicate`.

Layout, one module per file:

- `Wrappers`: `Option`.
- `Tokenizer`: `strtok`. `Tokens` is the token list. `NextToken` is one call, as a cursor over the string.
- `CommandModel`: `struct command_t` as a datatype.
- `Parser`: `parse_command`. Its trimming and token loops are methods, proved equal to the function `Parse`.
- `ParserProps`: what `Parse` promises, including a render/parse round trip and example lines.
- `LineEditor`: the key rules as the function `Run`. `Prompter` is a class holding `oldbuf`; its `Prompt` method loops over the keys and is proved equal to `Run`.
- `Exec`: the dispatch decision, the argv rebuild and the `PATH` walk.
- `LowerCase`, `ByteDiff`, `Shortdir`, `Unique`: the builtins' helpers.
- `Sequences`: subsequence and no-duplicates facts shared by the filters.

Where this model follows the code rather than the intended design:

- The `?` marker stays in the line and in the last token.
- A later redirect of one kind replaces the earlier one.
- `<` alone stores an empty file name, and the following word becomes an argument.
- Quotes do not group words: `echo "a b"` has the arguments `"a` and `b"`.
- Both markers are set on every stage of a pipeline.
- After ESC, a byte that does not continue the sequence is stored.
- Backspace keeps the escape state.
- Ctrl-D is accepted as text when it is the key that fills the buffer.
- `process_command` never runs the `next` stages: pipes are parsed but not connected.

Inputs from the environment are parameters:

- the keys `getchar` returns;
- the `PATH` string;
- the set of paths `execv` would run;
- the contents of files.

## Model

| member | source | states |
|---|---|---|
| Tokenizer.NextToken | seashell.c:128-132 | One `strtok` call from a position. It returns no token exactly when only delimiters remain. Otherwise it returns a non-empty delimiter-free token followed by a delimiter or the end, and the token list splits as that token plus the tokens after the resume point |
| Tokenizer.TokensOfJoin | seashell.c:116-131 | Tokens joined by one delimiter split back into exactly those tokens |
| Tokenizer.Tokens | seashell.c:116-131 | The tokens repeated `strtok` calls return, in order. Every one is non-empty and free of delimiters |
| Tokenizer.SkipDelimiters | seashell.c:131-144 | A run of delimiters adds no token |
| Tokenizer.TrailingDelimiters | seashell.c:105-109 | Delimiters after the end of a string add no token |
| Parser.TrimLeft | seashell.c:102-104 | The leading trim is no longer than the line and does not start with a space or tab |
| Parser.TrimRight | seashell.c:105-109 | The trailing trim is a prefix of the line that does not end with a space or tab |
| Parser.Trim | seashell.c:102-109 | The trimmed line is no longer than the line and has no space or tab at either end |
| Parser.TrimLine | seashell.c:102-109 | The in-place trims give the line with leading and trailing spaces and tabs removed |
| Parser.TrimShape | seashell.c:102-109 | The trimmed line is the slice of the line between a run of leading and a run of trailing spaces and tabs, and it has the same tokens as the line |
| Parser.BlanksAround | seashell.c:102-116 | A slice with only spaces and tabs around it has the tokens of the whole line |
| Parser.Stage | seashell.c:116-158 | The pipeline a token list describes: the first token names it, both markers are on it, and it has a next stage exactly when a `\|` follows the name |
| Parser.Parse | seashell.c:98-199 | The command `parse_command` builds. Its markers are read from the last character of the trimmed line, and its name is empty exactly for a blank line |
| Parser.RedirectTarget | seashell.c:166-184 | The stored file name is the token after its one (`<`, `>`) or two (`>>`) marker characters |
| Parser.FindPipe | seashell.c:147 | The first `|` token at or after a position, or the end, with no `|` before it |
| Parser.ParseCommand | seashell.c:98-199 | `parse_command` as a method: trim, read both markers, take the name, then the stage loop. The result equals `Parse(line)`. It is defined for every line in which the tokens after each stage's name fit `temp_buf` and every `\|` that ends a stage has a token after it |
| Parser.ParseStage | seashell.c:128-196 | The `while(1)` strtok loop. Its result is the stage the remaining tokens describe, proved through a remaining-work invariant |
| Parser.StageStep | seashell.c:131-196 | One round of that loop. Either it ends the stage (no more tokens, or a pipe followed by the parsed rest) or it adds the token and moves strictly forward |
| Parser.AddToken | seashell.c:161-195 | A non-pipe token: `&` is skipped, a redirect fills its slot (the later one wins), anything else is appended as an argument, unquoted when wrapped in matching quotes |
| Parser.ParsePipeTail | seashell.c:147-158 | The `|` branch: restore the overwritten delimiter, skip blanks, parse the rest recursively. The result is the stage of the tokens after the `|` |
| Parser.WalkFrom | seashell.c:128-158 | The stage loop's state after the name: walking the rest of the tokens gives the stage `Stage` describes |
| ParserProps.FlagsOnEveryStage | seashell.c:111-155 | On every stage of the pipeline, `auto_complete` holds exactly when the trimmed line ends in `?`, and `background` exactly when it ends in `&` |
| ParserProps.LongName | seashell.c:116-121 | A one-word line of any length parses to a stage with that name: the name is copied into a buffer of its own length, not into `temp_buf` |
| ParserProps.LongNameAfterPipe | seashell.c:147-158 | The name after a `\|` may be of any length too: the recursive call copies it into its own buffer |
| ParserProps.WordsFit | seashell.c:128-134 | In a well-formed pipeline written out as words, the words after each stage name fit `temp_buf` |
| ParserProps.RoundTrip | seashell.c:98-199 | A well-formed pipeline written out as words (name, arguments, redirects, `|` between stages, `&` at the end) is a line `parse_command` handles, and it parses back to the same pipeline |
| ParserProps.StageOfWords | seashell.c:128-196 | The words of a well-formed pipeline, as tokens, describe exactly that pipeline |
| ParserProps.RenderedLine | seashell.c:102-116 | The rendered line is already trimmed, splits back into its words, and ends in `&` exactly for a background pipeline |
| ParserProps.OwnSlots | seashell.c:166-195 | The words after a stage's name give back its arguments and its three redirect slots |
| ParserProps.StageCount | seashell.c:147-158 | When no stage is empty, the chain has one stage per `|` token plus one |
| ParserProps.RedirectNeedsAttachedName | seashell.c:166-184 | A line like `sort < in.txt` (a name, a lone `<`, then a plain word) stores an empty input file name, and the word becomes an argument |
| ParserProps.PipeExample | seashell.c:147-158 | A line like `ls -l \| wc -c` (plain words around a `\|`) is two stages, each with its own argument and no redirect |
| ParserProps.BackgroundExample | seashell.c:161-163 | A line like `sleep 5 &` sets background, and the `&` token is not an argument |
| ParserProps.AutoCompleteExample | seashell.c:111-112 | A line like `ls -l?` sets auto_complete, and the `?` stays in the last argument |
| ParserProps.QuotesDoNotGroup | seashell.c:186-195 | Quotes do not group words: in a line like `echo "a b"` the arguments are `"a` and `b"`, each kept with its quote |
| ParserProps.QuoteStripping | seashell.c:187-192 | Matching outer quotes are removed from a token longer than two. `""` and a mismatched pair are kept as written |
| ParserProps.LastRedirectWins | seashell.c:179-183 | In `cat >a >b` the second output redirect replaces the first |
| ParserProps.DoublePipeStage | seashell.c:147-158 | In `a \| \| b` the second `\|` is read as the name of the second stage |
| ParserProps.BlankLine | seashell.c:116-119 | A blank line has no token. The code as written calls `strlen` on the NULL token. The corrected model parses it to an empty name and a single stage |
| ParserProps.EmptyLineParse | seashell.c:116-121 | The empty line parses to the empty command |
| LineEditor.Store | seashell.c:283-292 | Storing a key: the line goes on only while it has room and the key is neither enter nor Ctrl-D. It ends with the key appended when the buffer is full or the key is enter. Ctrl-D cancels only a line that still has room |
| LineEditor.Recall | seashell.c:266-281 | The up arrow never cancels. A history with room becomes the buffer, in state 2. A history that fills the buffer ends the line, as the capacity test does for a stored key |
| LineEditor.KeyStep | seashell.c:239-292 | One key, in the order `prompt` tests them. Only Ctrl-D cancels. Tab and enter always end the line, and a line ends otherwise only when the buffer is full |
| LineEditor.Run | seashell.c:237-296 | The key loop from a state. It waits for more keys only if no Tab or enter came. It cancels only if a Ctrl-D came. An accepted line holds no NUL |
| LineEditor.KeyStepAsWritten | seashell.c:266-281 | The up arrow as written differs from the corrected key rule only for an up arrow in state 2 with a history that fills the buffer |
| LineEditor.CString | seashell.c:296-298 | A C string is no longer than its buffer and holds no NUL |
| LineEditor.KeyStepBounded | seashell.c:286-287 | In a state with room, a key leads to a state with room, or ends a line of at most 4095 characters |
| LineEditor.RunBounded | seashell.c:237-296 | Over any key sequence the buffer never holds more than 4095 characters before its NUL |
| LineEditor.RunAppend | seashell.c:237-239 | Reading keys in two parts is reading them at once, unless the first part ended the line |
| LineEditor.TypedLine | seashell.c:285-298 | Plain keys and then enter give the typed keys as a C string. The newline is stripped, and the line is cut at the first NUL key, as `strcpy` and `parse_command` read it |
| LineEditor.CapacityStop | seashell.c:286-287 | 4095 plain keys end the line with no enter key |
| LineEditor.BackspaceUndoes | seashell.c:246-254 | Backspace removes the last stored key, and does nothing on an empty buffer |
| LineEditor.BackspaceKeepsMode | seashell.c:246-270 | Backspace leaves the escape state as it was: ESC, Backspace, `[`, `A` still recalls |
| LineEditor.RecallRun | seashell.c:257-281 | ESC `[` `A` replaces the buffer with the history and stays in state 2, so a further `A` recalls again |
| LineEditor.RecallReaccepts | seashell.c:266-298 | Recalling and pressing enter accepts the history again |
| LineEditor.EscapeFallback | seashell.c:255-290 | After ESC, a key that is not `[` is stored and the state returns to 0. ESC in state 1 is itself stored |
| LineEditor.TabEnds | seashell.c:240-244 | Tab appends `?` and ends the line, whatever keys follow |
| LineEditor.CtrlDCancels | seashell.c:285-292 | Ctrl-D returns EXIT, unless it is the key that fills the buffer. Then the capacity stop comes first and the line is accepted |
| LineEditor.CStringAt | seashell.c:296-298 | A buffer's C string is its prefix before the first NUL |
| LineEditor.RecallOverflowAsWritten | seashell.c:266-296 | The code as written recalls a 4095-character history and goes on. The next stored key fills `buf[4095]`, and the NUL lands at `buf[4096]`. The corrected recall accepts the line instead |
| LineEditor.FullHistoryReachable | seashell.c:285-298 | 4095 plain keys make a 4095-character line, which becomes that history |
| LineEditor.Prompter.constructor | seashell.c:217 | The static `oldbuf` starts zeroed: the history is empty |
| LineEditor.Prompter.Prompt | seashell.c:212-298 | `prompt`'s getchar loop over the keys. Its outcome equals `Run` from an empty buffer with the old history. An accepted line becomes the new history; on EXIT or with keys left pending the history is unchanged |
| LineEditor.Prompter.HandleKey | seashell.c:240-292 | One key: `continue`, `break` or `return EXIT`, matching what `KeyStep` does with that key, with the buffer updated to match |
| LineEditor.Prompter.RecallInto | seashell.c:266-281 | The up arrow's loops copy `oldbuf` up to its NUL into `buf`. The new index is the history's length, at most 4095 |
| LineEditor.Prompter.Terminate | seashell.c:293-296 | The newline trim and the terminating NUL |
| LineEditor.Prompter.StrCopy | seashell.c:298 | `strcpy(oldbuf, buf)`: the history becomes the C string in `buf` |
| Exec.Decide | seashell.c:333-347 | An empty name is settled with SUCCESS and `exit` with EXIT. `cd` with an argument changes directory in the shell. Everything else forks, `cd` without an argument included |
| Exec.ShellCode | seashell.c:333-345 | A command settled in the shell returns EXIT exactly for `exit`, SUCCESS otherwise |
| Exec.DispatchOfLine | seashell.c:333-347 | For a parsed line, dispatch depends on the first word only: blank lines are skipped, a first word `exit` ends the shell, and any first word other than `exit` or `cd` forks |
| Exec.CdAloneForks | seashell.c:338-347 | The line `cd` is not settled in the shell: it forks |
| Exec.BuildArgv | seashell.c:367-377 | The argument vector has `arg_count + 2` slots, the name first, `args[i]` at `i + 1`, and NULL last |
| Exec.ArgvStrings | seashell.c:367-377 | `execv` reads the name and then the arguments, in order, up to the NULL |
| Exec.Candidates | seashell.c:675-684 | One candidate per non-empty `PATH` field, in order, each the field, a slash and the name |
| Exec.PathsShape | seashell.c:678-680 | The i-th path is the i-th directory, a slash and the name |
| Exec.FindExecutable | seashell.c:674-685 | The walk tries exactly the candidates `Tried` lists and finds the one `Found` names. It is defined whenever each of the candidates it builds fits the 200-byte buffer |
| Exec.TriedMeans | seashell.c:674-685 | The tried candidates are a prefix of all candidates, in `PATH` order, and none but the last runs. When one runs, it is the last tried. When none runs, every candidate was tried |
| Exec.FirstDirRuns | seashell.c:674-685 | Once a candidate runs, the `PATH` fields after it may be of any length: they are never copied into the buffer |
| Exec.CandidatesOfJoin | seashell.c:675-684 | A `PATH` written as directories joined by `:` yields one candidate per directory, in order |
| Exec.EmptyFieldsSkipped | seashell.c:675-684 | An empty `PATH` field (`a::b`) adds no candidate |
| LowerCase.LowerChar | seashell.c:868-869 | A capital moves up by 32 to its small letter; other characters stay; the result is never a capital |
| LowerCase.ToLower | seashell.c:865-872 | The copy's loop turns each character into its lower-case form |
| LowerCase.Lower | seashell.c:865-872 | The copy has the token's length and no capital |
| LowerCase.LowerIdempotent | seashell.c:865-872 | Lowering twice is lowering once |
| LowerCase.LowerFixed | seashell.c:865-872 | A token is its own copy exactly when it has no capital |
| LowerCase.LowerAppend | seashell.c:865-872 | Lowering works character by character over concatenation |
| ByteDiff.Getc | seashell.c:828-829 | `getc` gives EOF exactly at the end of the file |
| ByteDiff.CountByteDiffs | seashell.c:826-848 | The three getc loops count the mismatches over the common length plus the length difference |
| ByteDiff.DistanceZero | seashell.c:851-852 | The count is 0, so "identical" is printed, exactly when the two files are equal |
| ByteDiff.Mismatches | seashell.c:831-837 | The mismatches below a position are at most that many |
| ByteDiff.Distance | seashell.c:826-848 | The count `kdiff -b` reports lies between the length difference and the longer length |
| ByteDiff.DistanceBounds | seashell.c:826-848 | The count does not depend on the order of the files |
| ByteDiff.DistanceOfExtension | seashell.c:839-847 | Bytes one file has beyond the other count one each |
| ByteDiff.MismatchesZero | seashell.c:831-837 | No mismatch over a prefix exactly when the files agree on it |
| Shortdir.Delete | seashell.c:722-729 | The loop keeps, in file order, every entry whose short name differs from the one deleted |
| Shortdir.Keep | seashell.c:722-729 | The entries kept are no more than the file's, and none of them has the deleted short name |
| Shortdir.KeepExact | seashell.c:722-729 | Every entry with another short name is still there, and the kept entries are a subsequence of the file |
| Shortdir.KeepCount | seashell.c:722-729 | The entries kept number the entries less the occurrences of the deleted short name |
| Shortdir.KeepIdempotent | seashell.c:722-729 | Deleting the same name again changes nothing, and deleting a name no entry has changes nothing |
| Shortdir.KeepAppend | seashell.c:721-731 | The filter works line by line: deleting from two parts is deleting from each |
| Unique.IsDuplicate | seashell.c:874-887 | A word is a duplicate exactly when it is among the words already written |
| Unique.UniqueWords | seashell.c:626-643 | The fgets loop writes, line by line, the words the first-occurrence rule keeps. The seen list spans the file with `-f` and is emptied after each line with `-l` |
| Unique.UniqueLine | seashell.c:627-637 | One line's strtok loop writes the line's new words and adds them to the seen list |
| Unique.Fresh | seashell.c:627-637 | The words written for a line are words of the line that were not seen before, no more of them than the line has |
| Unique.Lines | seashell.c:626-643 | One written line for each line of the file |
| Unique.FreshExact | seashell.c:627-637 | A line's written words are: none twice, in line order, and every word of the line either seen before or written |
| Unique.PerLineIndependent | seashell.c:639-642 | With `-l` each line is de-duplicated on its own |
| Unique.PerFileUnique | seashell.c:626-643 | With `-f` no word is written twice in the whole file, and every word of the file is written (or was already seen) |

## Left out

- `fork`, `pipe`, `wait` and `execv` and their success or failure are process semantics. This includes the child returning UNKNOWN when every `execv` failed. `execv` is a parameter: the set of paths it would run. `Exec.FindExecutable` models the walk, not the exec.
- An unset `PATH`: `getenv` returning NULL is not modelled. The `PATH` string is a parameter.
- termios raw-mode setup and restore, the echo through `putchar`, and `prompt_backspace` are terminal I/O. The up arrow's backspace loop is kept only as the index reset.
- `getchar` is a parameter: the key sequence. When the keys run out, the outcome is `Pending` with the editor state, where `getchar` would block. End of input is not modelled, nor the conversion of EOF to a `char`.
- `show_prompt`, `print_command` and every `printf` are console output.
- `chdir` for `cd`, and the `shortdir jump` pipe protocol, are OS side effects. `Exec.Decide` only says that `cd` with an argument is settled in the shell.
- All file reading, writing, renaming and removing in the builtins, and `system`/`fnmatch`. The helpers take the contents as sequences: bytes for `kdiff -b`, parsed `directory shortname` entries for `shortdir del`, text lines for `unique`.
- Shortdir.Delete: takes the entries already split at the first space and the newline. It does not model the `strtok` split, the `fgets`/`feof` loop that skips a last line with no newline, or the NULL `sh` of a line with no space.
- Unique.UniqueWords: takes the file as its lines. It does not model the 500-byte `fgets` chunks of longer lines, nor the text layout of temp.txt (each word followed by a space, a newline per line).
- The line mode of `kdiff` depends on stdio end-of-file behaviour.
- `free_command` and the memory it leaks are manual memory management.
- The argument vector's strings are values, so `strdup` and pointer sharing are not modelled.
- The main loop of `main` (prompt, then process_command, stop on EXIT) is not a member. Its parts are `LineEditor.Prompter.Prompt`, `Exec.Decide` and `Exec.ShellCode`.
- `Parser.ParseCommand` requires that the tokens after each stage's name fit the 1024-byte `temp_buf`, and that every `|` that ends a stage has a token after it. Otherwise the code overruns `temp_buf`, or reads past the end of the line in the recursive call. Names are not bounded: each is copied into a buffer of its own length.
- `Exec.FindExecutable` requires each candidate it builds, up to and including the first that runs, to fit the 200-byte path buffer, which `strcpy`/`strcat` would overrun.
- Parser.Stage: the recursive call fills a `next` structure from `malloc`, which is never zeroed. Its markers are only ever set to true, and its redirect slots and `next` only when a token fills them; otherwise they keep whatever that memory held. The model gives them the values a zeroed structure would have: a false marker, no redirect, no next stage. `ParserProps.FlagsOnEveryStage` (its "exactly when") and `ParserProps.StageCount` rest on that choice.

## Findings

| source | as written | input that shows it | evidently intended | confidence | as-written member | corrected member |
|---|---|---|---|---|---|---|
| seashell.c:116-119 | `strlen(pch)` runs before the NULL check, so a line with no token passes NULL to `strlen` | the empty line, or a line of spaces | an empty name for a blank line, which `process_command` then skips | high (not executed) | ParserProps.BlankLine | Parser.ParseCommand |
| seashell.c:266-296 | the up arrow copies `oldbuf` into `buf` and continues with no capacity test | 4095 plain keys, then ESC `[` `A`, then any plain key: the key goes to `buf[4095]` and the NUL to `buf[4096]` | after the recall, end the line when `index >= sizeof(buf)-1`, as a stored key does | high (not executed) | LineEditor.RecallOverflowAsWritten | LineEditor.Prompter.Prompt |
