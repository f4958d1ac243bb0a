# suremd: the markdown test engine, modelled in Dafny

suremd checks the examples in markdown documents. It reads each document
line by line. A ```` ```console ```` block holds `$` command lines, and each
one is followed by lines its output must contain. Any other fenced block whose
first line carries a `File: path` marker is written to that path. The file is
formatted with the formatter for its extension, and a difference is reported
as a warning. Every document is tested in a directory under the build
directory named after its path, which two documents may share. The process exits with status 1 when any error was counted.

The model follows `suremd.py` and is split into these modules:

| module | file | what it models |
|---|---|---|
| `Text` | `text.dfy` | The Python string operations the engine relies on: `str.strip`, `str.rstrip("\n")`, `str.split` with a one-character separator, `"".join`, and `readlines`. |
| `CommandLine` | `command.dfy` | The command extractor `^\$\s*(.+)$`, with Python's greedy backtracking. |
| `Expected` | `expected.dfy` | The expected-line matcher. `re.escape` is applied, then `\.\.\.` is replaced by `.*`. The result is proved to be the line read as literals and wildcards. The `re.MULTILINE` search is proved to succeed exactly when some line of the output matches. |
| `FileMarker` | `marker.dfy` | The marker pattern `^\S*\s*File:\s+(((?:\w+/)*)[\w.]+)\s*.*$`, including the positions the backtracking engine settles on. |
| `Formatting` | `format.dfy` | The enabled-extension set and the formatter selection of `check_formatting`. |
| `FileSystem` | `os.dfy` | The directory tree, `os.makedirs`, `open(..., "w")`, and the classes `Os` (current directory and tree, updated in place) and `DirStack` (the stack of saved directories). |
| `TestDir` | `testdir.dfy` | The name of each document's test directory. |
| `StateMachine` | `machine.dfy` | The loop of `try_test_file`, as a step function over a tagged-union state (`Nothing`, `RunCommand`, `CommandOutput(stdout)`, `CreateFile`, `FileContent(name, dir, contents)`). Lemmas cover fences, console blocks and file blocks. |
| `Engine` | `engine.dfy` | `try_test_file`, `test_file` and `main` as imperative methods. Each is proved equal to the functions of the machine. |

The model stands the rest of the world in as parameters:

- **Running a command** is an oracle of the current directory, the tree and the command text. It yields the decoded output and the exit status, or `DecodeError` when `decode()` raises.
- **Running a formatter** is an oracle of the formatter command and the contents. It yields the decoded output, or `None`.

Exceptions are modelled as values:

- A `raised` flag stops the loop.
- `TryTestFile` returns `Raised`.
- An uncaught exception in `main` ends the run with `Crashed`, which gives exit status 1.

`test_file` pops its directory in `finally`, so `TestFile` restores the stack and the current directory even when the document raised. When `push_directory` itself raises, the directory has already been saved but nothing is popped. `TestFile` states this case too.

Documents are named by the absolute path `find_doc_files` gives them (suremd.py:69). `TestFile`, `TestEach` and `TestAll` require this, so a document resolves to the same file from whichever directory it is opened.

Each line is read off once, by `Parse`, into a `Line` record. The record holds the stripped text, the extracted command, the parsed marker and the text without its trailing line feeds. The machine is stated over those values. The source computes the same values on demand inside the loop; because they are pure functions of the line, the result is the same.

## Model

| member | source | states |
|---|---|---|
| Text.LeadingSpaces | suremd.py:165 | The length of the whitespace run that opens the text: everything before it is whitespace, and the character after it is not. |
| Text.LeadingNonSpaces | suremd.py:225 | The length of the non-whitespace run (`\S*`) that opens the text: it holds no whitespace, and it stops at whitespace or at the end. |
| Text.LStrip | suremd.py:126 | The result is a suffix of the text, everything dropped is whitespace, and the result does not start with whitespace. |
| Text.RStrip | suremd.py:126 | The result is a prefix of the text, everything dropped is whitespace, and the result does not end with whitespace. |
| Text.Strip | suremd.py:126 | `line.strip()` is a slice of the line that neither starts nor ends with whitespace. |
| Text.RStripNewlines | suremd.py:200-201 | `line.rstrip("\n")` is a prefix of the line, only line feeds were dropped, and it does not end in a line feed. |
| Text.Split | suremd.py:255 | `s.split(sep)` for a one-character separator, cutting at every separator; its contract says there is always at least one piece, and SplitPiecesFree, JoinSplit, SplitJoin, SplitOne and SplitLast state what the pieces are. |
| Text.Join | suremd.py:255 | `sep.join(parts)`, the specification partner of the split at this line: defined by its body, and JoinSplit and SplitJoin prove the two inverse to each other. |
| Text.SplitPiecesFree | suremd.py:255 | No piece of `s.split(sep)` contains the separator. |
| Text.JoinSplit | suremd.py:255 | Joining the pieces of a split with the separator gives back the string. |
| Text.SplitJoin | suremd.py:61 | Splitting a join of separator-free pieces gives back those pieces, the inverse of JoinSplit. |
| Text.SplitOne | suremd.py:61 | A split has a single piece exactly when the separator does not occur. |
| Text.SplitLast | suremd.py:255 | `split(sep)[-1]` is the text after the last separator: a separator-free suffix that, when the separator occurs, directly follows one. |
| Text.SplitCons | suremd.py:61 | A separator-free head followed by the separator becomes the first piece, and the rest is split on its own. |
| Text.SplitNoSep | suremd.py:61 | A string without the separator splits into itself alone. |
| Text.ReadLines | suremd.py:118-119 | `fp.readlines()`: the text cut after every line feed. It is defined by its body; ReadLinesJoin and ReadLinesAreLines state what the lines are. |
| Text.ReadLinesJoin | suremd.py:118-119 | The lines `readlines` yields, put together, are the document again. |
| Text.ReadLinesAreLines | suremd.py:118-119 | Every line ends in a line feed except possibly the last, and no line holds a line feed elsewhere. |
| CommandLine.ExtractCommand | suremd.py:165-167 | `re.findall(r"^\$\s*(.+)$", line)[0]`, or None when `IndexError` is caught. It is defined by its body; ExtractCommandMeaning states its meaning. |
| CommandLine.ExtractCommandMeaning | suremd.py:165-167 | A command is found exactly when the pattern matches the line. The command is the group of such a match. Greedy `\s*` makes it start with whitespace only when it is one character long. |
| CommandLine.ExtractPrompt | suremd.py:165 | `$`, whitespace, a command not starting with whitespace and an optional line feed yield exactly that command. |
| Expected.Tokens | suremd.py:206 | The expected line read left to right, each non-overlapping `...` a wildcard and every other character a literal. EscapeThenReplace proves the source's escape-and-replace equals it. |
| Expected.Escape | suremd.py:205 | `re.escape`: a backslash before every character of the Python 3.7 special set. Its meaning is stated through EscapeThenReplace. |
| Expected.ReplaceDots | suremd.py:206 | `str.replace(r"\.\.\.", r".*")`: every non-overlapping occurrence, left to right. Its meaning is stated through EscapeThenReplace and ReplaceDotsAnchors. |
| Expected.ExpectedRegex | suremd.py:205-206 | The pattern the engine builds: the replacement applied to the escaped line between `^` and `$`. RegexDenotesTokens states what it is. |
| Expected.ReplaceDotsAnchors | suremd.py:205-206 | The anchors hold no escaped dot, so replacing over the whole pattern is replacing over the escaped line alone. |
| Expected.ParseRender | suremd.py:205-206 | Reading a rendered token list back as a regular expression gives the tokens again. |
| Expected.EscapeThenReplace | suremd.py:205-206 | Escaping the line and then replacing every escaped `...` with `.*` is the same as rendering the line read left to right, with each non-overlapping `...` as a wildcard and everything else literal. |
| Expected.RegexDenotesTokens | suremd.py:205-206 | The pattern the engine builds is `^`, the rendered tokens and `$`, and it reads back as exactly those tokens. |
| Expected.Matches | suremd.py:205-207 | A full match of a line by the tokens, with `.` not crossing a line feed as in Python's default mode. WildMeaning, WildConsumes and WildAccepts state what a wildcard accepts. |
| Expected.Found | suremd.py:207-209 | `re.findall(regex, stdout, re.MULTILINE)` is non-empty: some stretch between two line boundaries is matched in full. FoundIffSomeLine restates this in terms of the lines of the output. |
| Expected.WildMeaning | suremd.py:206 | A `.*` matches exactly when some line-feed-free run can be consumed before the rest matches. |
| Expected.WildConsumes | suremd.py:206 | A matching wildcard has consumed a run without a line feed. |
| Expected.WildAccepts | suremd.py:206 | A wildcard can consume any run without a line feed, the converse of WildConsumes. |
| Expected.TokensNoNewline | suremd.py:201-205 | An expected line without a line feed yields no literal line feed. |
| Expected.MatchWithinLine | suremd.py:207 | A token list without a literal line feed only matches text without a line feed. |
| Expected.PieceIsSpan | suremd.py:207 | Every line of `stdout.split("\n")` lies between two line boundaries of the output. |
| Expected.SpanIsPiece | suremd.py:207 | A line-feed-free stretch between two line boundaries is one of the lines of the split, the converse of PieceIsSpan. |
| Expected.FoundIffSomeLine | suremd.py:205-209 | The `re.MULTILINE` search for an expected line succeeds exactly when some line of the output is matched in full. |
| Expected.LiteralLine | suremd.py:205-207 | Without `...`, an expected line matches only the identical line. |
| Expected.ElisionExample | suremd.py:205-209 | `he...o` is found in the output `hello`. |
| Formatting.Extension | suremd.py:255 | The extension is the dot-free end of the name. When the name has a dot, a dot comes right before it; otherwise it is the whole name. |
| Formatting.EnabledFor | suremd.py:60-62 | An extension is enabled exactly when it is one comma-separated piece of some `--format` argument. |
| Formatting.SelectFormatter | suremd.py:251-271 | A formatter is chosen only for a name with a dot whose extension is enabled or when `all` is given. In that case it is the one for the extension. |
| Formatting.CheckFormatting | suremd.py:250-294 | The result is not checked exactly when no formatter is selected. It is a warning exactly when the formatter's output differs from the contents. It is undecodable exactly when the output cannot be decoded. |
| Formatting.SelectionByExtension | suremd.py:255-271 | Two names with the same extension get the same formatter. |
| Formatting.SelectionMonotone | suremd.py:257-259 | Enabling more extensions never turns a chosen formatter off or changes it. |
| Formatting.AllEnablesEverything | suremd.py:257-271 | With `all`, the choice depends only on the extension. |
| Formatting.NoDotNoFormatter | suremd.py:251-253 | A name without a dot is never checked, whatever the formatter, the enabled set and the contents. |
| Formatting.ExtensionOf | suremd.py:255 | The extension of `stem.ext` is `ext`, whatever dots the stem holds. |
| Formatting.LastDotCounts | suremd.py:255-271 | `lib.c.py` is handled by black when `py` is enabled, and is not checked when only `c` is enabled. |
| Formatting.EnabledExample | suremd.py:60-62 | `--format c,h --format py` enables exactly `c`, `h` and `py`. |
| FileMarker.LongestPath | suremd.py:225 | The greedy path is the longest path-shaped prefix within the bound after which the rest of the pattern still matches. None when there is no such prefix. |
| FileMarker.AfterKeyword | suremd.py:225 | What follows `File:` yields only names made of `(\w+/)*` and `[\w.]+`. |
| FileMarker.PrefixLimitIsReach | suremd.py:225 | `^\S*\s*` can stop exactly at the positions up to PrefixLimit. |
| FileMarker.PrefixBound | suremd.py:225 | No split of a prefix into `\S*` then `\s*` can pass PrefixLimit. |
| FileMarker.MarkerPosition | suremd.py:223-227 | `File:` is taken at the last reachable position where the whole pattern matches, and None means it matches at none. |
| FileMarker.DirName | suremd.py:225 | `dir_name` is a prefix of `file_name`, is empty or ends in a slash, and no slash follows it in `file_name`. |
| FileMarker.PathChars | suremd.py:225 | A file name holds only word characters, dots and slashes. |
| FileMarker.ParseMarker | suremd.py:223-227 | A marker is found exactly when the pattern matches at some reachable position. The pair is the name matched at the position the engine takes, together with that name's directory part. |
| FileMarker.MarkerAtLimit | suremd.py:223-227 | A match at the furthest reachable position is the one the engine takes. |
| FileMarker.CommentedMarkerExample | suremd.py:223-227 | `// File: src/main.c` yields the file `src/main.c` in directory `src/`. |
| FileSystem.Resolve | suremd.py:80-84 | The absolute path a name stands for from the current directory. It is a textual join without normalisation; see Left out. |
| FileSystem.TrimSlashes | suremd.py:80 | The path without trailing slashes is a prefix that does not end in a slash, and only slashes were dropped. |
| FileSystem.Ancestors | suremd.py:74 | Defined by its body: the slash-delimited prefixes of the path, the directories `makedirs` needs. MakeDirs, AncestorsByParent and PathInAncestors state its meaning. |
| FileSystem.AncestorsByParent | suremd.py:74 | `makedirs` of a path needs the path itself plus what its parent needs, and nothing else; the parent of a top-level name needs nothing. |
| FileSystem.PathInAncestors | suremd.py:74 | A path not ending in a slash is itself one of the directories created. |
| FileSystem.MakeDirs | suremd.py:73-74 | `makedirs` fails exactly when a needed directory is a file. Otherwise it adds exactly the needed directories and leaves the files alone. |
| FileSystem.CreateDirectory | suremd.py:73-74 | `makedirs` of the name resolved against the working directory. It raises exactly for the empty name or when a directory it needs is a file. Otherwise it leaves the files alone and adds exactly the needed directories. PushDirectory and PushThenPop use it. |
| FileSystem.MakeDirsIdempotent | suremd.py:74 | With `exist_ok=True`, creating the same directories twice is the same as creating them once. |
| FileSystem.Parent | suremd.py:138 | The parent is the prefix before the last slash, or empty when the path has no slash. |
| FileSystem.WriteFile | suremd.py:138-139 | Writing fails exactly when the path is a directory or its parent is missing. Otherwise the file holds exactly the contents and no other file changes. |
| FileSystem.LastWriteWins | suremd.py:138-139 | Mode `"w"` truncates: of two writes to a path, the second contents remain. |
| FileSystem.WritesCommute | suremd.py:138-139 | Writes to two different paths commute. |
| FileSystem.Os.constructor | suremd.py:80-84 | The process state, the current directory and the tree that `os.chdir`, `os.makedirs` and `open` act on, starts from the given directory and tree. |
| FileSystem.DirStack.constructor | suremd.py:321 | The stack starts empty. |
| FileSystem.DirStack.PushDirectory | suremd.py:78-84 | The current directory is saved before anything can fail. On success the directory is created and entered. On failure the tree and the current directory are unchanged but the stack has still grown. |
| FileSystem.DirStack.PopDirectory | suremd.py:86-91 | It succeeds exactly when the stack is not empty, then returns to the directory saved last and removes it. The tree is never touched. |
| FileSystem.PushThenPop | suremd.py:78-91 | A push followed by a pop restores the stack and the current directory and keeps what the push created. |
| TestDir.TestDirName | suremd.py:95-96 | The directory name has the path's length: every `.`, `/` and space becomes `_`, every other character is kept, and none of `./ ` remains. |
| TestDir.TestDirNameIdempotent | suremd.py:95-96 | Sanitising an already sanitised name changes nothing. |
| TestDir.SameTestDir | suremd.py:95-96 | Two documents share a test directory exactly when their paths have the same length and agree everywhere except at positions where each holds one of `.`, `/`, space or `_`. |
| TestDir.DistinctDocumentsShareDirectory | suremd.py:95-96 | `a b.md` and `a_b.md` are both tested in `a_b_md`. |
| StateMachine.Parse | suremd.py:126-227 | The values the loop reads off one line: `line.strip()`, the command, the marker and `line.rstrip("\n")`. All are pure functions of the text; ParseAllLines and BodyOfParsed relate the records to the text. |
| StateMachine.Step | suremd.py:126-240 | One iteration of the loop: the fence checks first, then the state's handling. It is defined by its body; the fence and block lemmas below state what it does. |
| StateMachine.FenceStep | suremd.py:126-159 | The three fence checks in the source's order. BareFenceCloses, FenceClosesFile, ConsoleFenceOpens, OtherFenceOpens and FenceStepErrors state what each does. |
| StateMachine.CloseFile | suremd.py:131-143 | Closing a file block: create the directory, check the formatting, write the file, any of them raising. CloseFileWrites states what it leaves. |
| StateMachine.CommandStep | suremd.py:163-197 | A command line: skip it, or run it and branch on decoding and the exit status. NoCommandSkipped and CommandOutcome state what it does. |
| StateMachine.OutputStep | suremd.py:199-219 | An expected output line: skipped when blank, otherwise one error when it is not found. BlankExpectedSkipped and ExpectedLineChecked state what it does. |
| StateMachine.MarkerStep | suremd.py:221-237 | The first line of a file block: open the named file, or leave the block. MarkerOutcome states what it does. |
| StateMachine.LineStep | suremd.py:160-240 | A line that is not a fence: prompt re-entry, then the handling of the current state. PromptReentersCommand and ContentAccumulates state what it does. |
| StateMachine.Run | suremd.py:124-240 | The loop over the lines, stopping once something raised. RunSnoc, RunAppend and RaisedIsFinal state how it composes. |
| StateMachine.ParsedFileBody | suremd.py:126-128 | Lines whose stripped text never starts with three backticks contain no fence. |
| StateMachine.BodyIsConcat | suremd.py:240 | The body of a block is its lines' texts joined. |
| StateMachine.BodyOfParsed | suremd.py:240 | The body read off a text is that text again, character for character. |
| StateMachine.StripKeepsFirst | suremd.py:126 | Stripping keeps a first character that is not whitespace. |
| StateMachine.PromptIsNoFence | suremd.py:156-160 | A line starting with `$` is never a fence, so it reaches the prompt check. |
| StateMachine.StripOfNewlines | suremd.py:200-203 | A line made only of line feeds is no fence. |
| StateMachine.RunSnoc | suremd.py:124 | Running the document up to a line and then stepping that line is running through it. It stops once something raised. |
| StateMachine.RunAppend | suremd.py:124 | Running two parts in turn is running them together. |
| StateMachine.BareFenceCloses | suremd.py:128-151 | A bare fence leaves every state for `Nothing` unless an exception was raised, and adds no error. Outside a file block it changes nothing else. |
| StateMachine.FenceClosesFile | suremd.py:131-143 | A bare fence in a file block is where the file is closed and written. |
| StateMachine.ConsoleFenceOpens | suremd.py:152-155 | ```` ```console ```` opens a console block from any state. |
| StateMachine.OtherFenceOpens | suremd.py:156-159 | Any other fence opens a file block from any state, dropping any open block. |
| StateMachine.PromptReentersCommand | suremd.py:160-163 | In the output part, a `$` line is handled as a command in the same iteration. |
| StateMachine.NoCommandSkipped | suremd.py:163-167 | A line without a command is skipped and the block stays a command block. |
| StateMachine.CommandOutcome | suremd.py:171-197 | A nonzero exit status adds exactly one error and ends the block. Status zero makes the output the text later lines are looked up in. The model gives a command no effect on the tree (see Left out). |
| StateMachine.BlankExpectedSkipped | suremd.py:199-203 | An expected line that is empty after `rstrip("\n")` is skipped and never counts. |
| StateMachine.ExpectedLineChecked | suremd.py:199-219 | An expected line adds one error exactly when no line of the output matches it, with `...` as wildcards. The block stays open. |
| StateMachine.MissesAppend | suremd.py:207-219 | The missing-line count of two parts is the sum of their counts. |
| StateMachine.MissesPermutation | suremd.py:207-219 | The missing-line count does not depend on the lines' order. |
| StateMachine.MissesAt | suremd.py:207-219 | The count is that of one line plus that of the others. |
| StateMachine.OutputBlockErrors | suremd.py:199-219 | The expected lines of a console block add exactly one error per line missing from the output, and change nothing else. |
| StateMachine.OutputOrderIrrelevant | suremd.py:205-219 | Running the expected lines in any order gives the same machine. |
| StateMachine.MarkerOutcome | suremd.py:221-237 | A marker line opens the named file with empty contents. A line without one ends the block. |
| StateMachine.ContentAccumulates | suremd.py:239-240 | The body lines are appended as they are, in order. |
| StateMachine.CloseFileWrites | suremd.py:131-143 | Closing a file adds no error. Unless it raised, the file holds exactly the contents, its directory exists and the state is `Nothing`. Nothing else in the tree changes: every other file is as it was, and the only new directories are the ones `makedirs` made for the marker's directory. |
| StateMachine.FileBodyWritten | suremd.py:131-143 | After the body and the closing fence, the file holds the earlier contents followed by every body line. Its directory exists, nothing else in the tree changes except the directories made for it, and the errors are unchanged, unless creating or writing raised. |
| StateMachine.MarkerOpensFile | suremd.py:221-237 | A marker line opens the file it names, with empty contents. |
| StateMachine.FileBlockWritten | suremd.py:221-240 | For a whole file block (marker line, body, closing fence), the named file holds exactly the body and its directory exists, unless something raised. Every other file is unchanged, and the only new directories are those made for the marker's directory. |
| StateMachine.UnmarkedBlockWritesNothing | suremd.py:228-231 | A file block whose first line has no marker writes nothing, even when closed. |
| StateMachine.EmptyFileBlock | suremd.py:128-151 | A bare fence right after a file fence closes the block without writing. |
| StateMachine.OutsideBlocksIgnored | suremd.py:124-240 | Outside any block, non-fence lines change nothing. |
| StateMachine.NoFencesNoErrors | suremd.py:116-247 | A document without fences leaves the initial machine as it was: no error and an untouched tree. |
| StateMachine.FenceStepErrors | suremd.py:126-159 | Fence handling never adds an error. |
| StateMachine.StepErrors | suremd.py:124-240 | One line adds at most one error, and errors are never taken back. |
| StateMachine.RunErrors | suremd.py:124-240 | A document of n lines adds between zero and n errors. |
| StateMachine.RaisedIsFinal | suremd.py:124 | After an exception, no further line has any effect. |
| Engine.ExitStatus | suremd.py:331 | The status is 0 or 1, and it is 0 exactly when the run completed without an error. |
| Engine.FenceLine | suremd.py:126-159 | The fence handling, with the tree updated in place, ends in exactly the machine FenceStep gives. The current directory is unchanged. |
| Engine.TextLine | suremd.py:160-240 | The handling of a non-fence line ends in exactly the machine LineStep gives. |
| Engine.StepLine | suremd.py:124-240 | One iteration of the loop ends in exactly the machine Step gives for the line read off. |
| Engine.StopsAfterRaise | suremd.py:124 | After a line that raised, the rest of the document is never read. |
| Engine.TryTestFile | suremd.py:116-247 | A document that cannot be opened raises and changes nothing. Otherwise the loop leaves the tree, the warnings and the result that running the machine over the document's lines gives. |
| Engine.TestFile | suremd.py:94-106 | The outcome and tree are those of testing the document in its sanitised directory. After a completed test, or one where the directory could be created, the stack and current directory are as before. When creating the directory raised, one entry is left on the stack. |
| Engine.TestOne | suremd.py:327 | Testing one document agrees with the function that stands for `test_file`. |
| Engine.TestEach | suremd.py:325-327 | The loop's result and tree are those of TestDocuments: errors add up, and the first crash ends the loop. When it completes, the stack and current directory are as before. |
| Engine.TestAll | suremd.py:316-331 | The exit status and tree are those of the whole suite run in the build directory. When it completes, the stack and current directory are restored. |
| Engine.Document | suremd.py:116-247 | `try_test_file`: None when the document cannot be opened, otherwise the machine after running its lines. TryTestFile is proved to agree with it. |
| Engine.TestDocument | suremd.py:94-106 | `test_file`: create and enter the sanitised directory, then try the document there. TestFile is proved to agree with it; UnfencedDocumentPasses and MissingDocumentCrashes are about it. |
| Engine.TestDocuments | suremd.py:325-327 | The loop of `main`: errors add up and the first crash ends it. TestEach is proved to agree with it; SuitePassesIff, StopsAfterCrash and ErrorsOnlyAddUp are about it. |
| Engine.Suite | suremd.py:316-331 | `main`: create and enter the build directory, then test every document. TestAll is proved to agree with it. |
| Engine.TestDocumentsNext | suremd.py:325-327 | One more document adds its errors to the count, unless it or an earlier one crashed. |
| Engine.NextDocument | suremd.py:325-327 | After documents that completed, the next one is tested on the tree they left. |
| Engine.StopsAfterCrash | suremd.py:326-327 | After the first crash, no further document changes the outcome or the tree. |
| Engine.SuitePassesIff | suremd.py:325-331 | The run passes exactly when every document, tested on the tree the ones before it left, completes without an error. |
| Engine.LastPasses | suremd.py:325-327 | The run passes exactly when the earlier documents pass and the last one passes too. |
| Engine.InitAgrees | suremd.py:325-327 | Dropping the last document changes neither an earlier document nor the tree it is tested on. |
| Engine.ErrorsOnlyAddUp | suremd.py:325-327 | Every prefix of a completed run completes and counts at most the errors of the whole. |
| Engine.UnfencedDocumentPasses | suremd.py:94-106 | A document without a single fence passes, and only its own directory is created. |
| Engine.MissingDocumentCrashes | suremd.py:118 | A document the tree does not hold crashes the run. |
| Engine.EmptySuitePasses | suremd.py:316-331 | A run without documents passes and only creates the build directory. |

## Left out

- Command-line parsing with `argparse` (suremd.py:17-64): the build directory, the enabled extensions and the document list are parameters.
- Document discovery with `glob` and its sorting (suremd.py:67-70): the documents are tested in the order given.
- Running commands and formatters (suremd.py:171-176, 273-279): both are oracles, because what an external process prints is not known. A command's effects on the tree are not modelled. The command oracle sees the current directory and the tree, so its output may depend on them. The formatter oracle sees only the formatter command and the contents. A configuration file in the test directory, for example one written by an earlier file block, cannot change its result in the model.
- The unified diff of `check_formatting` (suremd.py:283-291): only "warn exactly when the contents differ" is modelled. Warnings are recorded as the names of the files concerned.
- Logging (suremd.py:169, 181, 185-189, 194-195, 210-218, 233, 242-245, 297-313): printing to stderr (errors always; warnings, information and debug output by verbosity), with no effect on the result.
- Character encodings: text is a sequence of characters. `readlines` newline translation and the decoding of the document itself are not modelled. Decoding a process's output is modelled only through the oracles' error result.
- FileMarker.AfterKeyword: `\w` is ASCII letters, digits and underscore only, where Python also accepts other Unicode letters and digits. A name holding such a character is cut short before it, because the rest of the line still satisfies the pattern's `\s*.*$` tail: for `// File: café.c` the model yields `caf` where the engine writes `café.c`. A name starting with such a character is not found at all.
- FileSystem.Resolve: relative paths are joined to the current directory textually. Only trailing slashes are removed; `.`, `..` and repeated slashes are not normalised as `os.path.abspath` does, and symbolic links are not modelled.
- FileSystem.MakeDirs: the tree is modelled as sets of directories and files. A `makedirs` that fails partway, leaving some directories created, is modelled as creating none.
- FileSystem.DirStack.PushDirectory: `os.chdir` is modelled as always succeeding once the directory exists.
- Engine.TestAll: the stack and current directory are stated only for a run that completed. After an exception the process ends, and the stack no longer matters.
- The `errors = 1` of `test_file` (suremd.py:98) is never returned: when `try_test_file` raises, the exception propagates. The model therefore has no path on which it counts.
- Later versions of the tool add a directory probe after each command, matching of expected lines in order, anonymous file blocks and a stop-on-error flag. `suremd.py` has none of them, and this model follows `suremd.py`. Three consequences:
  - every expected line is looked up in the whole output;
  - a block whose first line has no marker writes nothing and checks nothing;
  - every document is tested to the end unless an exception is raised.
- `main` has no `try` around its loop (suremd.py:323-331): an exception in one document skips the final pop and ends the process. The model follows the code and does not bracket the run.
