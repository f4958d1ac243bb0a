/**
 * The line-by-line state machine of `try_test_file` (suremd.py:116-247),
 * as a function from the machine before a line to the machine after it.
 *
 * The state is a tagged union: the locals the source keeps beside its
 * `state` variable (the command's output, the file's name, directory and
 * contents) travel with the state they belong to. Running a command is an
 * oracle of the current directory, the tree and the command text; it
 * yields the decoded output and the exit status, or DecodeError when the
 * output is not valid UTF-8 and `decode()` raises.
 */
module StateMachine {
  import opened Wrappers
  import opened Text
  import opened CommandLine
  import opened Expected
  import opened FileMarker
  import opened Formatting
  import opened FileSystem

  /** The five states of suremd.py:109-113, with the data each one carries. */
  datatype State =
    | Nothing
    | RunCommand
    | CommandOutput(stdout: string)
    | CreateFile
    | FileContent(fileName: string, dirName: string, contents: string)

  datatype RunResult = Ran(stdout: string, exitCode: int) | DecodeError

  type CommandOracle = (string, Fs, string) -> RunResult

  /** What the engine is given: the two oracles and the extensions enabled for formatting. */
  datatype Config = Config(run: CommandOracle, format: FormatOracle, enabled: set<string>)

  /**
   * The machine between two lines: the state, the error count, the tree,
   * the names of the files that got a formatting warning, and whether an
   * exception has been raised (after which no further line is read).
   */
  datatype Machine = Machine(state: State, errors: nat, fs: Fs, warnings: seq<string>, raised: bool)

  /**
   * A line of the document with what the loop reads off it: `line.strip()`
   * for the fence checks, the command of a `$` line, the file marker, and
   * `line.rstrip("\n")` for an expected output line. Each is a pure
   * function of the text (see Parse); the machine is stated over these
   * values, so the lemmas about it hold whatever the text is.
   */
  datatype Line = Line(text: string, stripped: string, command: Option<string>,
                       marker: Option<(string, string)>, expected: string)

  /** What the loop reads off one line of text. */
  function Parse(text: string): Line {
    Line(text, Strip(text), ExtractCommand(text), ParseMarker(text), RStripNewlines(text))
  }

  /** Every line of a document, read off in order. */
  function ParseAll(texts: seq<string>): seq<Line> {
    seq(|texts|, i requires 0 <= i < |texts| => Parse(texts[i]))
  }

  /** A line that opens or closes a block: its stripped text starts with three backticks. */
  predicate IsFence(l: Line) {
    StartsWith(l.stripped, "```")
  }

  /** A `$` prompt line, which ends a command's expected output. */
  predicate IsPrompt(l: Line) {
    StartsWith(l.text, "$")
  }

  /**
   * The closing fence of a file block (suremd.py:131-143): the directory is
   * created when there is one, the formatting is checked, then the file is
   * written. Any of the three can raise.
   */
  function CloseFile(cfg: Config, cwd: string, m: Machine, name: string, dir: string, contents: string): Machine {
    var created := if dir == "" then Some(m.fs) else CreateDirectory(m.fs, cwd, dir);
    if created.None? then m.(raised := true)
    else
      var check := CheckFormatting(cfg.format, cfg.enabled, name, contents);
      var m1 := m.(fs := created.value);
      if check == Undecodable then m1.(raised := true)
      else
        var m2 := if check == Warning then m1.(warnings := m1.warnings + [name]) else m1;
        match WriteFile(m2.fs, Resolve(cwd, name), contents)
        case None => m2.(raised := true)
        case Some(fs) => m2.(state := Nothing, fs := fs)
  }

  /** The fence checks (suremd.py:126-159), in the order the source makes them. */
  function FenceStep(cfg: Config, cwd: string, m: Machine, stripped: string): Machine
    requires StartsWith(stripped, "```")
  {
    if stripped == "```" then
      match m.state
      case FileContent(name, dir, contents) => CloseFile(cfg, cwd, m, name, dir, contents)
      case _ => m.(state := Nothing)
    else if stripped == "```console" then m.(state := RunCommand)
    else m.(state := CreateFile)
  }

  /** A command line (suremd.py:163-197). */
  function CommandStep(cfg: Config, cwd: string, m: Machine, l: Line): Machine {
    match l.command
    case None => m.(state := RunCommand)
    case Some(command) =>
      match cfg.run(cwd, m.fs, command)
      case DecodeError => m.(state := RunCommand, raised := true)
      case Ran(out, code) =>
        if code != 0 then m.(state := Nothing, errors := m.errors + 1)
        else m.(state := CommandOutput(out))
  }

  /** `re.findall(regex, stdout, re.MULTILINE)` is non-empty for the expected line. */
  predicate ExpectedFound(expected: string, stdout: string) {
    Found(Tokens(expected), stdout)
  }

  /** An expected output line (suremd.py:199-219). */
  function OutputStep(m: Machine, stdout: string, l: Line): Machine {
    if l.expected == "" || ExpectedFound(l.expected, stdout) then m
    else m.(errors := m.errors + 1)
  }

  /** The first line of a file block (suremd.py:221-237). */
  function MarkerStep(m: Machine, l: Line): Machine {
    match l.marker
    case None => m.(state := Nothing)
    case Some((name, dir)) => m.(state := FileContent(name, dir, ""))
  }

  /**
   * A line that is not a fence (suremd.py:160-240): in the output part of a
   * console block a `$` line is taken as a command; then the state decides.
   */
  function LineStep(cfg: Config, cwd: string, m: Machine, l: Line): Machine {
    match m.state
    case Nothing => m
    case RunCommand => CommandStep(cfg, cwd, m, l)
    case CommandOutput(out) =>
      if IsPrompt(l) then CommandStep(cfg, cwd, m, l) else OutputStep(m, out, l)
    case CreateFile => MarkerStep(m, l)
    case FileContent(name, dir, contents) => m.(state := FileContent(name, dir, contents + l.text))
  }

  /** One line of the document: the fence checks come first. */
  function Step(cfg: Config, cwd: string, m: Machine, l: Line): Machine {
    if IsFence(l) then FenceStep(cfg, cwd, m, l.stripped) else LineStep(cfg, cwd, m, l)
  }

  /** The loop over the document's lines; it ends early once something raised. */
  function Run(cfg: Config, cwd: string, m: Machine, lines: seq<Line>): Machine
    decreases |lines|
  {
    if lines == [] || m.raised then m else Run(cfg, cwd, Step(cfg, cwd, m, lines[0]), lines[1..])
  }

  /** The machine `try_test_file` starts from. */
  function Initial(fs: Fs): Machine {
    Machine(Nothing, 0, fs, [], false)
  }

  // ---------------------------------------------------------------------
  // Reading lines off text

  /** Reading off a document gives one line per line of text, each read off on its own. */
  lemma ParseAllLines(texts: seq<string>)
    ensures |ParseAll(texts)| == |texts|
    ensures forall i :: 0 <= i < |texts| ==> ParseAll(texts)[i] == Parse(texts[i])
  {
  }

  /** Text without a fence line reads off as lines without a fence. */
  lemma ParsedFileBody(texts: seq<string>)
    requires forall t :: t in texts ==> !StartsWith(Strip(t), "```")
    ensures IsFileBody(ParseAll(texts))
  {
    forall l | l in ParseAll(texts) ensures !IsFence(l) {
      var i :| 0 <= i < |texts| && ParseAll(texts)[i] == l;
      assert texts[i] in texts;
    }
  }

  /** The texts of a file block's body lines, one after the other. */
  function Body(lines: seq<Line>): string
    decreases |lines|
  {
    if lines == [] then "" else lines[0].text + Body(lines[1..])
  }

  /** The texts the lines were read off. */
  function Texts(lines: seq<Line>): seq<string> {
    seq(|lines|, i requires 0 <= i < |lines| => lines[i].text)
  }

  /** Reading lines off texts keeps the texts. */
  lemma TextsOfParsed(texts: seq<string>)
    ensures Texts(ParseAll(texts)) == texts
  {
  }

  /** A body is its lines' texts, joined. */
  lemma {:induction false} BodyIsConcat(lines: seq<Line>)
    ensures Body(lines) == Concat(Texts(lines))
    decreases |lines|
  {
    if lines != [] {
      assert Texts(lines)[1..] == Texts(lines[1..]);
      BodyIsConcat(lines[1..]);
    }
  }

  /** A body read off text is that text again: reading keeps every character. */
  lemma BodyOfParsed(texts: seq<string>)
    ensures Body(ParseAll(texts)) == Concat(texts)
  {
    BodyIsConcat(ParseAll(texts));
    TextsOfParsed(texts);
  }

  /** Appending the first body line and then the others is appending the body. */
  lemma ContentsCons(c: string, lines: seq<Line>)
    requires lines != []
    ensures c + lines[0].text + Body(lines[1..]) == c + Body(lines)
  {
    assert Body(lines) == lines[0].text + Body(lines[1..]);
  }

  /** A line whose first character is not whitespace keeps it after stripping. */
  lemma StripKeepsFirst(text: string)
    requires text != [] && !IsSpace(text[0])
    ensures Strip(text) != [] && Strip(text)[0] == text[0]
  {
    var r := Strip(text);
    var i :| 0 <= i <= i + |r| <= |text| && r == text[i..i + |r|]
              && AllSpace(text[..i]) && AllSpace(text[i + |r|..]);
    assert i > 0 ==> text[..i][0] == text[0];
  }

  /** A `$` line is never a fence. */
  lemma PromptIsNoFence(text: string)
    requires StartsWith(text, "$")
    ensures !StartsWith(Strip(text), "```")
  {
    TakeIndex(text, 1, 0);
    StripKeepsFirst(text);
    TakeIndex(Strip(text), 3, 0);
  }

  /** A line made of line feeds only strips to nothing, so it is no fence. */
  lemma StripOfNewlines(text: string)
    requires RStripNewlines(text) == ""
    ensures !StartsWith(Strip(text), "```")
  {
    var r := Strip(text);
    var i :| 0 <= i <= i + |r| <= |text| && r == text[i..i + |r|]
              && AllSpace(text[..i]) && AllSpace(text[i + |r|..]);
  }

  // ---------------------------------------------------------------------
  // Running one more line

  /** Running a document is running its prefix and then stepping its last line. */
  lemma {:induction false} RunSnoc(cfg: Config, cwd: string, m: Machine, lines: seq<Line>, l: Line)
    ensures var before := Run(cfg, cwd, m, lines);
            Run(cfg, cwd, m, lines + [l]) == if before.raised then before else Step(cfg, cwd, before, l)
    decreases |lines|
  {
    if lines == [] {
      assert lines + [l] == [l];
    } else if !m.raised {
      assert (lines + [l])[1..] == lines[1..] + [l];
      RunSnoc(cfg, cwd, Step(cfg, cwd, m, lines[0]), lines[1..], l);
    }
  }

  /** Running two parts one after the other is running them together. */
  lemma {:induction false} RunAppend(cfg: Config, cwd: string, m: Machine, a: seq<Line>, b: seq<Line>)
    ensures Run(cfg, cwd, m, a + b) == Run(cfg, cwd, Run(cfg, cwd, m, a), b)
    decreases |a|
  {
    if a == [] {
      assert a + b == b;
    } else if m.raised {
      assert Run(cfg, cwd, m, b) == m;
    } else {
      assert (a + b)[1..] == a[1..] + b;
      RunAppend(cfg, cwd, Step(cfg, cwd, m, a[0]), a[1..], b);
    }
  }

  lemma RunCons(cfg: Config, cwd: string, m: Machine, lines: seq<Line>)
    requires lines != [] && !m.raised
    ensures Run(cfg, cwd, m, lines) == Run(cfg, cwd, Step(cfg, cwd, m, lines[0]), lines[1..])
  {
  }

  lemma RunSingle(cfg: Config, cwd: string, m: Machine, l: Line)
    requires !m.raised
    ensures Run(cfg, cwd, m, [l]) == Step(cfg, cwd, m, l)
  {
  }

  // ---------------------------------------------------------------------
  // Fences

  /** A stripped bare fence ends any block; outside a file block nothing else changes. */
  lemma BareFenceCloses(cfg: Config, cwd: string, m: Machine, l: Line)
    requires l.stripped == "```"
    ensures var n := Step(cfg, cwd, m, l);
            (n.state == Nothing || n.raised) && n.errors == m.errors
    ensures !m.state.FileContent? ==> Step(cfg, cwd, m, l) == m.(state := Nothing)
  {
    if m.state.FileContent? {
      FenceClosesFile(cfg, cwd, m, l);
      CloseFileWrites(cfg, cwd, m, m.state.fileName, m.state.dirName, m.state.contents);
    } else {
      assert StartsWith("```", "```");
    }
  }

  /** A stripped bare fence in a file block is where the file is written. */
  lemma FenceClosesFile(cfg: Config, cwd: string, m: Machine, l: Line)
    requires l.stripped == "```" && m.state.FileContent?
    ensures Step(cfg, cwd, m, l) == CloseFile(cfg, cwd, m, m.state.fileName, m.state.dirName, m.state.contents)
  {
    assert StartsWith("```", "```");
  }

  /** A stripped "```console" opens a console block from any state. */
  lemma ConsoleFenceOpens(cfg: Config, cwd: string, m: Machine, l: Line)
    requires l.stripped == "```console"
    ensures Step(cfg, cwd, m, l) == m.(state := RunCommand)
  {
    assert StartsWith("```console", "```");
  }

  /**
   * Any other fence opens a file block from any state, dropping whatever
   * block was open: a file block left this way is never written.
   */
  lemma OtherFenceOpens(cfg: Config, cwd: string, m: Machine, l: Line)
    requires IsFence(l) && l.stripped != "```" && l.stripped != "```console"
    ensures Step(cfg, cwd, m, l) == m.(state := CreateFile)
  {
  }

  // ---------------------------------------------------------------------
  // Console blocks

  /**
   * In the output part of a console block a `$` line is taken as the next
   * command in the same iteration, exactly as in the command state.
   */
  lemma PromptReentersCommand(cfg: Config, cwd: string, m: Machine, l: Line)
    requires m.state.CommandOutput? && IsPrompt(l) && l.stripped == Strip(l.text)
    ensures Step(cfg, cwd, m, l) == Step(cfg, cwd, m.(state := RunCommand), l)
  {
    PromptIsNoFence(l.text);
  }

  /** A line without a command is skipped and the block stays a command block. */
  lemma NoCommandSkipped(cfg: Config, cwd: string, m: Machine, l: Line)
    requires m.state == RunCommand && !IsFence(l) && l.command.None?
    ensures Step(cfg, cwd, m, l) == m
  {
  }

  /**
   * A command that fails adds exactly one error and ends the block; one
   * that succeeds makes its output the text later lines are looked up in.
   * The model gives a command no effect on the tree (see Left out).
   */
  lemma CommandOutcome(cfg: Config, cwd: string, m: Machine, l: Line, command: string, out: string, code: int)
    requires m.state == RunCommand && !IsFence(l)
    requires l.command == Some(command) && cfg.run(cwd, m.fs, command) == Ran(out, code)
    ensures var n := Step(cfg, cwd, m, l);
            n.fs == m.fs && n.raised == m.raised
            && (code != 0 ==> n.state == Nothing && n.errors == m.errors + 1)
            && (code == 0 ==> n.state == CommandOutput(out) && n.errors == m.errors)
  {
  }

  /** A blank expected line is skipped and never counts as an error. */
  lemma BlankExpectedSkipped(cfg: Config, cwd: string, m: Machine, out: string, l: Line)
    requires m.state == CommandOutput(out) && !IsPrompt(l)
    requires l.stripped == Strip(l.text) && l.expected == RStripNewlines(l.text) && l.expected == ""
    ensures Step(cfg, cwd, m, l) == m
  {
    StripOfNewlines(l.text);
  }

  /**
   * An expected line adds one error exactly when it is missing from the
   * output, that is when no line of the output matches it, every `...`
   * standing for any run of characters; the block stays open.
   */
  lemma ExpectedLineChecked(cfg: Config, cwd: string, m: Machine, out: string, l: Line)
    requires m.state == CommandOutput(out) && !IsPrompt(l) && !IsFence(l)
    requires IsLine(l.text) && l.expected == RStripNewlines(l.text) && l.expected != ""
    ensures var found := exists i :: 0 <= i < |Split(out, '\n')| && Matches(Tokens(l.expected), Split(out, '\n')[i]);
            Step(cfg, cwd, m, l) == m.(errors := m.errors + if found then 0 else 1)
  {
    var e := l.expected;
    assert '\n' !in e by {
      forall j | 0 <= j < |e| ensures e[j] != '\n' {
        assert e[j] == l.text[j];
      }
    }
    FoundIffSomeLine(e, out);
  }

  /** The number of expected lines missing from `out`. */
  function Misses(out: string, lines: seq<Line>): nat
    decreases |lines|
  {
    if lines == [] then 0
    else (if lines[0].expected == "" || ExpectedFound(lines[0].expected, out) then 0 else 1)
         + Misses(out, lines[1..])
  }

  lemma {:induction false} MissesAppend(out: string, a: seq<Line>, b: seq<Line>)
    ensures Misses(out, a + b) == Misses(out, a) + Misses(out, b)
    decreases |a|
  {
    if a == [] {
      assert a + b == b;
    } else {
      assert (a + b)[1..] == a[1..] + b;
      MissesAppend(out, a[1..], b);
    }
  }

  /** The count of missing lines does not depend on their order. */
  lemma {:induction false} MissesPermutation(out: string, a: seq<Line>, b: seq<Line>)
    requires multiset(a) == multiset(b)
    ensures Misses(out, a) == Misses(out, b)
    decreases |a|
  {
    if a != [] {
      assert a[0] in multiset(b);
      var j :| 0 <= j < |b| && b[j] == a[0];
      RemoveFirst(a, b, j);
      MissesPermutation(out, a[1..], b[..j] + b[j + 1..]);
      MissesAt(out, b, j);
      MissesAt(out, a, 0);
    }
  }

  /** Taking out the first element of `a` and an equal one of `b` leaves equal multisets. */
  lemma RemoveFirst<T>(a: seq<T>, b: seq<T>, j: int)
    requires multiset(a) == multiset(b) && a != [] && 0 <= j < |b| && b[j] == a[0]
    ensures multiset(a[1..]) == multiset(b[..j] + b[j + 1..])
  {
    assert b == b[..j] + [b[j]] + b[j + 1..];
    assert a == [a[0]] + a[1..];
    assert multiset(b) == multiset(b[..j]) + multiset{b[j]} + multiset(b[j + 1..]);
    assert multiset(b[..j] + b[j + 1..]) == multiset(b[..j]) + multiset(b[j + 1..]);
    assert multiset(a) == multiset{a[0]} + multiset(a[1..]);
    assert multiset(b[..j] + b[j + 1..]) == multiset(b) - multiset{a[0]};
    assert multiset(a[1..]) == multiset(a) - multiset{a[0]};
  }

  /** The misses of a list are those of one of its lines plus those of the others. */
  lemma MissesAt(out: string, b: seq<Line>, j: int)
    requires 0 <= j < |b|
    ensures Misses(out, b) == Misses(out, [b[j]]) + Misses(out, b[..j] + b[j + 1..])
  {
    assert b == b[..j] + [b[j]] + b[j + 1..];
    MissesAppend(out, b[..j] + [b[j]], b[j + 1..]);
    MissesAppend(out, b[..j], [b[j]]);
    MissesAppend(out, b[..j], b[j + 1..]);
  }

  /** The body of a console block's output part: no fence and no prompt. */
  predicate IsOutputBody(lines: seq<Line>) {
    forall l :: l in lines ==> !IsFence(l) && !IsPrompt(l)
  }

  /** The expected lines of a console block add one error for each line missing from the output. */
  lemma {:induction false} OutputBlockErrors(cfg: Config, cwd: string, m: Machine, out: string, lines: seq<Line>)
    requires m.state == CommandOutput(out) && !m.raised && IsOutputBody(lines)
    ensures Run(cfg, cwd, m, lines) == m.(errors := m.errors + Misses(out, lines))
    decreases |lines|
  {
    if lines != [] {
      var n := Step(cfg, cwd, m, lines[0]);
      assert lines[0] in lines;
      assert n == OutputStep(m, out, lines[0]);
      assert forall l :: l in lines[1..] ==> l in lines;
      OutputBlockErrors(cfg, cwd, n, out, lines[1..]);
    }
  }

  /**
   * The expected lines are each looked up in the whole output, so running
   * them in any order gives the same machine.
   */
  lemma OutputOrderIrrelevant(cfg: Config, cwd: string, m: Machine, out: string, a: seq<Line>, b: seq<Line>)
    requires m.state == CommandOutput(out) && !m.raised && IsOutputBody(a) && multiset(a) == multiset(b)
    ensures Run(cfg, cwd, m, a) == Run(cfg, cwd, m, b)
  {
    assert forall l :: l in b ==> l in multiset(b);
    OutputBlockErrors(cfg, cwd, m, out, a);
    OutputBlockErrors(cfg, cwd, m, out, b);
    MissesPermutation(out, a, b);
  }

  // ---------------------------------------------------------------------
  // File blocks

  /** A marker line opens the file with empty contents; a line without one ends the block. */
  lemma MarkerOutcome(cfg: Config, cwd: string, m: Machine, l: Line)
    requires m.state == CreateFile && !IsFence(l)
    ensures l.marker.None? ==> Step(cfg, cwd, m, l) == m.(state := Nothing)
    ensures l.marker.Some? ==>
              var (name, dir) := l.marker.value;
              Step(cfg, cwd, m, l) == m.(state := FileContent(name, dir, ""))
  {
  }

  /** The lines of a file block's body: none of them a fence. */
  predicate IsFileBody(lines: seq<Line>) {
    forall l :: l in lines ==> !IsFence(l)
  }

  lemma FileBodyTail(lines: seq<Line>)
    requires lines != [] && IsFileBody(lines)
    ensures !IsFence(lines[0]) && IsFileBody(lines[1..])
  {
    assert lines[0] in lines;
    assert forall l :: l in lines[1..] ==> l in lines;
  }

  /** A body line is appended to the contents as it is, line feed included. */
  lemma ContentStep(cfg: Config, cwd: string, m: Machine, l: Line)
    requires m.state.FileContent? && !IsFence(l)
    ensures Step(cfg, cwd, m, l) == m.(state := m.state.(contents := m.state.contents + l.text))
  {
  }

  /** The body lines are appended to the contents as they are, line feeds included. */
  lemma {:induction false} ContentAccumulates(cfg: Config, cwd: string, m: Machine, lines: seq<Line>)
    requires m.state.FileContent? && !m.raised && IsFileBody(lines)
    ensures Run(cfg, cwd, m, lines) == m.(state := m.state.(contents := m.state.contents + Body(lines)))
    decreases |lines|
  {
    if lines != [] {
      var n := m.(state := m.state.(contents := m.state.contents + lines[0].text));
      FileBodyTail(lines);
      ContentStep(cfg, cwd, m, lines[0]);
      RunCons(cfg, cwd, m, lines);
      ContentAccumulates(cfg, cwd, n, lines[1..]);
      ContentsCons(m.state.contents, lines);
    }
  }

  /**
   * The tree `after` differs from `before` only in the file at `path` and in
   * the directories `made` added to it.
   */
  ghost predicate OnlyWritten(before: Fs, after: Fs, path: string, made: set<string>) {
    (forall q :: q != path ==> (q in after.files <==> q in before.files)
                               && (q in before.files ==> after.files[q] == before.files[q]))
    && (forall d :: d in after.dirs <==> d in before.dirs || d in made)
  }

  /** The directories a file block's marker asks for: none, or those `makedirs` makes. */
  function MarkerDirs(cwd: string, dir: string): set<string> {
    if dir == "" then {} else Ancestors(Resolve(cwd, dir))
  }

  /**
   * Closing a file block never counts an error; unless it raised, the file
   * holds exactly the contents, the directory exists, and nothing else in
   * the tree changed.
   */
  lemma CloseFileWrites(cfg: Config, cwd: string, m: Machine, name: string, dir: string, contents: string)
    ensures var n := CloseFile(cfg, cwd, m, name, dir, contents);
            n.errors == m.errors
            && (!n.raised ==>
                  n.state == Nothing
                  && Resolve(cwd, name) in n.fs.files && n.fs.files[Resolve(cwd, name)] == contents
                  && (dir != "" ==> Ancestors(Resolve(cwd, dir)) <= n.fs.dirs)
                  && OnlyWritten(m.fs, n.fs, Resolve(cwd, name), MarkerDirs(cwd, dir)))
  {
  }

  /**
   * The body and the closing fence of a file block: the file holds the
   * contents so far followed by every body line, its directory exists,
   * nothing else in the tree changed, and the error count is unchanged
   * (unless creating or writing raised).
   */
  lemma FileBodyWritten(cfg: Config, cwd: string, m: Machine, body: seq<Line>, close: Line)
    requires m.state.FileContent? && !m.raised && IsFileBody(body) && close.stripped == "```"
    ensures var n := Run(cfg, cwd, m, body + [close]);
            var FileContent(name, dir, c) := m.state;
            n.errors == m.errors
            && (!n.raised ==>
                  n.state == Nothing
                  && Resolve(cwd, name) in n.fs.files && n.fs.files[Resolve(cwd, name)] == c + Body(body)
                  && (dir != "" ==> Ancestors(Resolve(cwd, dir)) <= n.fs.dirs)
                  && OnlyWritten(m.fs, n.fs, Resolve(cwd, name), MarkerDirs(cwd, dir)))
  {
    var FileContent(name, dir, c) := m.state;
    RunAppend(cfg, cwd, m, body, [close]);
    ContentAccumulates(cfg, cwd, m, body);
    var m2 := m.(state := FileContent(name, dir, c + Body(body)));
    RunSingle(cfg, cwd, m2, close);
    FenceClosesFile(cfg, cwd, m2, close);
    CloseFileWrites(cfg, cwd, m2, name, dir, c + Body(body));
  }

  /** A marker line in front of the rest of a block opens the file it names. */
  lemma MarkerOpensFile(cfg: Config, cwd: string, m: Machine, marker: Line, rest: seq<Line>)
    requires m.state == CreateFile && !m.raised && !IsFence(marker) && marker.marker.Some?
    ensures var (name, dir) := marker.marker.value;
            Run(cfg, cwd, m, [marker] + rest) == Run(cfg, cwd, m.(state := FileContent(name, dir, "")), rest)
  {
    MarkerOutcome(cfg, cwd, m, marker);
    RunCons(cfg, cwd, m, [marker] + rest);
    assert ([marker] + rest)[1..] == rest;
  }

  /**
   * A whole file block: after the marker line, the body and the closing
   * fence, the file named by the marker holds exactly the body, its
   * directory exists, nothing else in the tree changed, and the error count
   * is unchanged (unless creating or writing raised).
   */
  lemma FileBlockWritten(cfg: Config, cwd: string, m: Machine, marker: Line, body: seq<Line>, close: Line)
    requires m.state == CreateFile && !m.raised && !IsFence(marker) && IsFileBody(body) && close.stripped == "```"
    requires marker.marker.Some?
    ensures var (name, dir) := marker.marker.value;
            var n := Run(cfg, cwd, m, [marker] + (body + [close]));
            n.errors == m.errors
            && (!n.raised ==>
                  n.state == Nothing
                  && Resolve(cwd, name) in n.fs.files && n.fs.files[Resolve(cwd, name)] == Body(body)
                  && (dir != "" ==> Ancestors(Resolve(cwd, dir)) <= n.fs.dirs)
                  && OnlyWritten(m.fs, n.fs, Resolve(cwd, name), MarkerDirs(cwd, dir)))
  {
    var (name, dir) := marker.marker.value;
    MarkerOpensFile(cfg, cwd, m, marker, body + [close]);
    FileBodyWritten(cfg, cwd, m.(state := FileContent(name, dir, "")), body, close);
    assert "" + Body(body) == Body(body);
  }

  /** A file block whose first line has no marker writes nothing, even when it is closed. */
  lemma UnmarkedBlockWritesNothing(cfg: Config, cwd: string, m: Machine, first: Line, body: seq<Line>, close: Line)
    requires m.state == CreateFile && !m.raised && !IsFence(first) && first.marker.None?
    requires IsFileBody(body) && close.stripped == "```"
    ensures Run(cfg, cwd, m, [first] + (body + [close])) == m.(state := Nothing)
  {
    var m1 := m.(state := Nothing);
    MarkerOutcome(cfg, cwd, m, first);
    RunCons(cfg, cwd, m, [first] + (body + [close]));
    assert ([first] + (body + [close]))[1..] == body + [close];
    RunAppend(cfg, cwd, m1, body, [close]);
    OutsideBlocksIgnored(cfg, cwd, m1, body);
    RunSingle(cfg, cwd, m1, close);
    BareFenceCloses(cfg, cwd, m1, close);
  }

  /** A bare fence right after a file fence closes the block without writing. */
  lemma EmptyFileBlock(cfg: Config, cwd: string, m: Machine, close: Line)
    requires m.state == CreateFile && close.stripped == "```"
    ensures Step(cfg, cwd, m, close) == m.(state := Nothing)
  {
    BareFenceCloses(cfg, cwd, m, close);
  }

  // ---------------------------------------------------------------------
  // Whole documents

  /** Outside any block, lines that are not fences change nothing. */
  lemma {:induction false} OutsideBlocksIgnored(cfg: Config, cwd: string, m: Machine, lines: seq<Line>)
    requires m.state == Nothing && IsFileBody(lines)
    ensures Run(cfg, cwd, m, lines) == m
    decreases |lines|
  {
    if lines != [] && !m.raised {
      FileBodyTail(lines);
      assert Step(cfg, cwd, m, lines[0]) == m;
      OutsideBlocksIgnored(cfg, cwd, m, lines[1..]);
    }
  }

  /** A document without fences passes with no error and leaves the tree alone. */
  lemma NoFencesNoErrors(cfg: Config, cwd: string, fs: Fs, lines: seq<Line>)
    requires IsFileBody(lines)
    ensures Run(cfg, cwd, Initial(fs), lines) == Initial(fs)
  {
    OutsideBlocksIgnored(cfg, cwd, Initial(fs), lines);
  }

  /** The part of a step taken on a fence adds no error. */
  lemma FenceStepErrors(cfg: Config, cwd: string, m: Machine, stripped: string)
    requires StartsWith(stripped, "```")
    ensures FenceStep(cfg, cwd, m, stripped).errors == m.errors
  {
    if stripped == "```" && m.state.FileContent? {
      CloseFileWrites(cfg, cwd, m, m.state.fileName, m.state.dirName, m.state.contents);
    }
  }

  /** One line adds at most one error, and errors are never taken back. */
  lemma StepErrors(cfg: Config, cwd: string, m: Machine, l: Line)
    ensures m.errors <= Step(cfg, cwd, m, l).errors <= m.errors + 1
  {
    if IsFence(l) {
      FenceStepErrors(cfg, cwd, m, l.stripped);
    }
  }

  /** A document of n lines counts between zero and n errors more than it started with. */
  lemma {:induction false} RunErrors(cfg: Config, cwd: string, m: Machine, lines: seq<Line>)
    ensures m.errors <= Run(cfg, cwd, m, lines).errors <= m.errors + |lines|
    decreases |lines|
  {
    if lines != [] && !m.raised {
      StepErrors(cfg, cwd, m, lines[0]);
      RunErrors(cfg, cwd, Step(cfg, cwd, m, lines[0]), lines[1..]);
    }
  }

  /** Once an exception is raised, no later line has any effect. */
  lemma RaisedIsFinal(cfg: Config, cwd: string, m: Machine, lines: seq<Line>)
    requires m.raised
    ensures Run(cfg, cwd, m, lines) == m
  {
  }
}
