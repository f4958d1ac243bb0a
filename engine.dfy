/**
 * The driver of suremd.py: `try_test_file` reads one document and runs the
 * state machine over its lines (suremd.py:116-247), `test_file` runs it in
 * the document's own directory (suremd.py:94-106), and `main` tests every
 * document from the build directory and turns the error count into the
 * exit status (suremd.py:316-331).
 *
 * The file system and the current directory are the fields of an `Os`
 * object the methods update in place; the stack of saved directories is a
 * `DirStack`. Each method is proved against a function that says what the
 * run comes to, and the lemmas at the end are about those functions.
 */
module Engine {
  import opened Wrappers
  import opened Text
  import opened CommandLine
  import opened Expected
  import opened FileMarker
  import opened Formatting
  import opened FileSystem
  import opened TestDir
  import opened StateMachine

  /** What `try_test_file` comes to: the error count, or an exception. */
  datatype Attempt = Returned(errors: nat) | Raised

  /** What testing one document comes to for `main`: an error count, or an uncaught exception. */
  datatype Outcome = Completed(errors: nat) | Crashed

  /** A document as `find_doc_files` lists it: its absolute path and the path it was found under. */
  datatype Doc = Doc(path: string, name: string)

  /**
   * `find_doc_files` makes every path absolute before any directory is
   * pushed (suremd.py:69), so resolving it does not depend on the
   * directory it is resolved from.
   */
  predicate IsAbsolute(doc: Doc) {
    |doc.path| > 0 && doc.path[0] == '/'
  }

  // ---------------------------------------------------------------------
  // What a run comes to

  /**
   * `try_test_file` from directory `cwd`: None when the document cannot be
   * opened, otherwise the machine after its last line (or after the line
   * that raised).
   */
  function Document(cfg: Config, cwd: string, fs: Fs, path: string): Option<Machine> {
    var abs := Resolve(cwd, path);
    if abs !in fs.files then None
    else Some(Run(cfg, cwd, Initial(fs), ParseAll(ReadLines(fs.files[abs]))))
  }

  /**
   * `test_file`: the document's directory is created and entered, the
   * document is tried there, and the tree it leaves behind is returned
   * with the outcome. Creating the directory can raise too.
   */
  function TestDocument(cfg: Config, cwd: string, fs: Fs, doc: Doc): (Outcome, Fs) {
    var dir := TestDirName(doc.name);
    match CreateDirectory(fs, cwd, dir)
    case None => (Crashed, fs)
    case Some(created) =>
      match Document(cfg, Resolve(cwd, dir), created, doc.path)
      case None => (Crashed, created)
      case Some(n) => (if n.raised then Crashed else Completed(n.errors), n.fs)
  }

  /** How one document is tested: from a tree to the outcome and the tree it leaves. */
  type DocTest = (Fs, Doc) -> (Outcome, Fs)

  /**
   * The loop of `main` over the documents, each tested by `test`: the
   * error counts add up, and the first crash ends the run.
   */
  function TestDocuments(test: DocTest, fs: Fs, docs: seq<Doc>): (Outcome, Fs)
    decreases |docs|
  {
    if docs == [] then (Completed(0), fs)
    else
      var (before, fs1) := TestDocuments(test, fs, docs[..|docs| - 1]);
      if before.Crashed? then (Crashed, fs1)
      else
        var (last, fs2) := test(fs1, docs[|docs| - 1]);
        (if last.Crashed? then Crashed else Completed(before.errors + last.errors), fs2)
  }

  /** `main`: the build directory is created and entered, then every document is tested there. */
  function Suite(cfg: Config, cwd: string, fs: Fs, buildDir: string, docs: seq<Doc>): (Outcome, Fs) {
    match CreateDirectory(fs, cwd, buildDir)
    case None => (Crashed, fs)
    case Some(created) =>
      TestDocuments(DocTestIn(cfg, Resolve(cwd, buildDir)), created, docs)
  }

  /** Testing each document with `test_file` from directory `cwd`. */
  function DocTestIn(cfg: Config, cwd: string): DocTest {
    (f: Fs, d: Doc) => TestDocument(cfg, cwd, f, d)
  }

  /** `sys.exit(errors != 0)`; an uncaught exception also ends the process with status 1. */
  function ExitStatus(o: Outcome): (status: int)
    ensures status == 0 || status == 1
    ensures status == 0 <==> o == Completed(0)
  {
    if o == Completed(0) then 0 else 1
  }

  // ---------------------------------------------------------------------
  // One line

  /**
   * A line whose stripped text starts with three backticks
   * (suremd.py:127-155): a bare fence closes the block, writing the file of
   * a file block; "```console" opens a console block; any other fence opens
   * a file block.
   */
  method FenceLine(cfg: Config, os: Os, state: State, errors: nat, warnings: seq<string>, stripped: string)
      returns (state': State, warnings': seq<string>, raised: bool)
    requires StartsWith(stripped, "```")
    modifies os
    ensures os.cwd == old(os.cwd)
    ensures Machine(state', errors, os.fs, warnings', raised)
            == FenceStep(cfg, old(os.cwd), Machine(state, errors, old(os.fs), warnings, false), stripped)
  {
    state', warnings', raised := state, warnings, false;
    if stripped == "```" {
      if state.FileContent? {
        var FileContent(name, dir, contents) := state;
        if dir != "" {
          var created := CreateDirectory(os.fs, os.cwd, dir);
          if created.None? {
            raised := true;
            return;
          }
          os.fs := created.value;
        }
        var check := CheckFormatting(cfg.format, cfg.enabled, name, contents);
        if check == Undecodable {
          raised := true;
          return;
        }
        if check == Warning {
          warnings' := warnings' + [name];
        }
        var written := WriteFile(os.fs, Resolve(os.cwd, name), contents);
        if written.None? {
          raised := true;
          return;
        }
        os.fs := written.value;
      }
      state' := Nothing;
    } else if stripped == "```console" {
      state' := RunCommand;
    } else {
      state' := CreateFile;
    }
  }

  /**
   * Any other line (suremd.py:156-240): a `$` line in the output part of a
   * console block is taken as a command; then the state decides, using the
   * values the line was read off into. Nothing here changes the tree, so it
   * is read, not modified.
   */
  method TextLine(cfg: Config, cwd: string, fs: Fs, state: State, errors: nat, warnings: seq<string>, line: Line)
      returns (state': State, errors': nat, raised: bool)
    ensures Machine(state', errors', fs, warnings, raised)
            == LineStep(cfg, cwd, Machine(state, errors, fs, warnings, false), line)
  {
    state', errors', raised := state, errors, false;
    if state'.CommandOutput? && IsPrompt(line) {
      state' := RunCommand;
    }
    if state' == RunCommand {
      var command := line.command;
      if command.None? {
        return;
      }
      var run := cfg.run(cwd, fs, command.value);
      if run.DecodeError? {
        raised := true;
        return;
      }
      if run.exitCode != 0 {
        errors' := errors' + 1;
        state' := Nothing;
        return;
      }
      state' := CommandOutput(run.stdout);
    } else if state'.CommandOutput? {
      var expected := line.expected;
      if expected == "" {
        return;
      }
      if !ExpectedFound(expected, state'.stdout) {
        errors' := errors' + 1;
      }
    } else if state' == CreateFile {
      var marker := line.marker;
      if marker.None? {
        state' := Nothing;
        return;
      }
      var (name, dir) := marker.value;
      state' := FileContent(name, dir, "");
    } else if state'.FileContent? {
      state' := state'.(contents := state'.contents + line.text);
    }
  }

  /**
   * One iteration of the loop of `try_test_file` (suremd.py:124-240): the
   * line is read off, the fence checks on its stripped text come first, then
   * the line is handled by the state.
   */
  method StepLine(cfg: Config, os: Os, state: State, errors: nat, warnings: seq<string>, line: string)
      returns (state': State, errors': nat, warnings': seq<string>, raised: bool)
    modifies os
    ensures os.cwd == old(os.cwd)
    ensures Machine(state', errors', os.fs, warnings', raised)
            == Step(cfg, old(os.cwd), Machine(state, errors, old(os.fs), warnings, false), Parse(line))
  {
    var l := Parse(line);
    if IsFence(l) {
      errors' := errors;
      state', warnings', raised := FenceLine(cfg, os, state, errors, warnings, l.stripped);
    } else {
      warnings' := warnings;
      state', errors', raised := TextLine(cfg, os.cwd, os.fs, state, errors, warnings, l);
    }
  }

  /** Taking one more element of a sequence appends that element; a loop step's proof uses it. */
  lemma TakeOneMore<T>(s: seq<T>, i: nat)
    requires i < |s|
    ensures s[..i + 1] == s[..i] + [s[i]]
  {
  }

  /** A sequence is its first `n` elements followed by the rest. */
  lemma TakeAndDrop<T>(s: seq<T>, n: nat)
    requires n <= |s|
    ensures s == s[..n] + s[n..]
  {
  }

  /** After a line that raised, the rest of the document is never read. */
  lemma StopsAfterRaise(cfg: Config, cwd: string, m: Machine, lines: seq<Line>, i: nat)
    requires i < |lines| && Run(cfg, cwd, m, lines[..i + 1]).raised
    ensures Run(cfg, cwd, m, lines) == Run(cfg, cwd, m, lines[..i + 1])
  {
    TakeAndDrop(lines, i + 1);
    RunAppend(cfg, cwd, m, lines[..i + 1], lines[i + 1..]);
    RaisedIsFinal(cfg, cwd, Run(cfg, cwd, m, lines[..i + 1]), lines[i + 1..]);
  }

  // ---------------------------------------------------------------------
  // One document

  /**
   * `try_test_file(file_abs, ...)`: the document is opened from the tree
   * and read into lines, and every line is stepped in turn until the last
   * one or until one raises. Returns the error count and the names of the
   * files that got a formatting warning.
   */
  method TryTestFile(cfg: Config, os: Os, path: string) returns (r: Attempt, warnings: seq<string>)
    modifies os
    ensures os.cwd == old(os.cwd)
    ensures match Document(cfg, old(os.cwd), old(os.fs), path)
            case None => r == Raised && os.fs == old(os.fs)
            case Some(n) => os.fs == n.fs && warnings == n.warnings
                            && r == (if n.raised then Raised else Returned(n.errors))
  {
    var cwd := os.cwd;
    var abs := Resolve(cwd, path);
    warnings := [];
    if abs !in os.fs.files {
      return Raised, warnings;
    }
    var lines := ReadLines(os.fs.files[abs]);
    ghost var m0 := Initial(os.fs);
    ghost var parsed := ParseAll(lines);
    ParseAllLines(lines);
    var state := Nothing;
    var errors := 0;
    var i := 0;
    while i < |lines|
      invariant 0 <= i <= |lines| && os.cwd == cwd
      invariant Run(cfg, cwd, m0, parsed[..i]) == Machine(state, errors, os.fs, warnings, false)
    {
      var line := lines[i];
      var raised;
      state, errors, warnings, raised := StepLine(cfg, os, state, errors, warnings, line);
      assert parsed[i] == Parse(line);
      RunSnoc(cfg, cwd, m0, parsed[..i], parsed[i]);
      TakeOneMore(parsed, i);
      if raised {
        StopsAfterRaise(cfg, cwd, m0, parsed, i);
        return Raised, warnings;
      }
      i := i + 1;
    }
    assert parsed[..i] == parsed;
    r := Returned(errors);
  }

  /**
   * `test_file(file_abs, file, dir_stack)`: pushes the document's directory,
   * tries the document, and pops the directory again whether or not the
   * attempt raised. When the push itself raises, nothing is popped.
   */
  method TestFile(cfg: Config, stack: DirStack, os: Os, doc: Doc) returns (o: Outcome)
    requires stack != os as object && IsAbsolute(doc)
    modifies stack, os
    ensures (o, os.fs) == TestDocument(cfg, old(os.cwd), old(os.fs), doc)
    ensures CreateDirectory(old(os.fs), old(os.cwd), TestDirName(doc.name)).Some? ==>
              stack.saved == old(stack.saved) && os.cwd == old(os.cwd)
    ensures o.Completed? ==> stack.saved == old(stack.saved) && os.cwd == old(os.cwd)
    ensures CreateDirectory(old(os.fs), old(os.cwd), TestDirName(doc.name)).None? ==>
              stack.saved == old(stack.saved) + [old(os.cwd)] && os.cwd == old(os.cwd)
  {
    var dir := TestDirName(doc.name);
    var pushed := stack.PushDirectory(os, dir);
    if !pushed {
      return Crashed;
    }
    var r, _ := TryTestFile(cfg, os, doc.path);
    var popped := stack.PopDirectory(os);
    assert popped;
    o := if r.Raised? then Crashed else Completed(r.errors);
  }

  // ---------------------------------------------------------------------
  // Every document

  /** `test_file` on one document, seen through `test`, the function that says what it comes to. */
  method TestOne(cfg: Config, stack: DirStack, os: Os, cwd: string, doc: Doc, ghost test: DocTest)
      returns (o: Outcome)
    requires stack != os as object && os.cwd == cwd && IsAbsolute(doc)
    requires forall f: Fs, d: Doc {:trigger TestDocument(cfg, cwd, f, d)} :: test(f, d) == TestDocument(cfg, cwd, f, d)
    modifies stack, os
    ensures (o, os.fs) == test(old(os.fs), doc)
    ensures o.Completed? ==> stack.saved == old(stack.saved) && os.cwd == cwd
  {
    o := TestFile(cfg, stack, os, doc);
  }

  /**
   * The loop of `main` over the documents (suremd.py:326-327), run from
   * directory `cwd`: each document is tested with `test_file` and its
   * errors are added up; an exception in one of them ends the loop, and
   * the program, at once. `test` names what testing one document comes to.
   */
  method TestEach(cfg: Config, stack: DirStack, os: Os, cwd: string, docs: seq<Doc>, ghost test: DocTest)
      returns (o: Outcome)
    requires stack != os as object && os.cwd == cwd
    requires forall d :: d in docs ==> IsAbsolute(d)
    requires forall f: Fs, d: Doc {:trigger TestDocument(cfg, cwd, f, d)} :: test(f, d) == TestDocument(cfg, cwd, f, d)
    modifies stack, os
    ensures (o, os.fs) == TestDocuments(test, old(os.fs), docs)
    ensures o.Completed? ==> stack.saved == old(stack.saved) && os.cwd == cwd
  {
    ghost var fs0 := os.fs;
    ghost var saved := stack.saved;
    var errors: nat := 0;
    var i := 0;
    assert docs[..i] == [];
    while i < |docs|
      invariant 0 <= i <= |docs| && os.cwd == cwd && stack.saved == saved
      invariant TestDocuments(test, fs0, docs[..i]) == (Completed(errors), os.fs)
    {
      ghost var fsBefore := os.fs;
      var outcome := TestOne(cfg, stack, os, cwd, docs[i], test);
      NextDocument(test, fs0, docs, i, errors, fsBefore);
      if outcome.Crashed? {
        StopsAfterCrash(test, fs0, docs, i + 1);
        return Crashed;
      }
      errors := errors + outcome.errors;
      i := i + 1;
    }
    assert docs[..i] == docs;
    o := Completed(errors);
  }

  /**
   * `main()` after the command line is parsed (suremd.py:316-331): the
   * build directory is pushed, every document is tested in the order
   * given, and the directory is popped; the exit status is 1 when any error
   * was counted. An exception ends the program at once with status 1,
   * leaving the stack as it was when it was raised.
   */
  method TestAll(cfg: Config, stack: DirStack, os: Os, buildDir: string, docs: seq<Doc>) returns (status: int)
    requires stack != os as object
    requires forall d :: d in docs ==> IsAbsolute(d)
    modifies stack, os
    ensures var (o, fs) := Suite(cfg, old(os.cwd), old(os.fs), buildDir, docs);
            status == ExitStatus(o) && os.fs == fs
            && (o.Completed? ==> stack.saved == old(stack.saved) && os.cwd == old(os.cwd))
  {
    var pushed := stack.PushDirectory(os, buildDir);
    if !pushed {
      return 1;
    }
    var o := TestEach(cfg, stack, os, os.cwd, docs, DocTestIn(cfg, os.cwd));
    if o.Crashed? {
      return 1;
    }
    var popped := stack.PopDirectory(os);
    assert popped;
    status := if o.errors != 0 then 1 else 0;
  }

  // ---------------------------------------------------------------------
  // Properties of a run

  /** The documents up to the `i`-th one: those before it, then that one unless they crashed. */
  lemma TestDocumentsNext(test: DocTest, fs: Fs, docs: seq<Doc>, i: nat)
    requires i < |docs|
    ensures var (before, fs1) := TestDocuments(test, fs, docs[..i]);
            var (last, fs2) := test(fs1, docs[i]);
            TestDocuments(test, fs, docs[..i + 1])
            == if before.Crashed? then (Crashed, fs1)
               else (if last.Crashed? then Crashed else Completed(before.errors + last.errors), fs2)
  {
    var p := docs[..i + 1];
    assert p[..|p| - 1] == docs[..i];
  }

  /** One more document after documents that completed with `errors` errors on tree `fsi`. */
  lemma NextDocument(test: DocTest, fs: Fs, docs: seq<Doc>, i: nat, errors: nat, fsi: Fs)
    requires i < |docs| && TestDocuments(test, fs, docs[..i]) == (Completed(errors), fsi)
    ensures var (last, fsn) := test(fsi, docs[i]);
            TestDocuments(test, fs, docs[..i + 1])
            == (if last.Crashed? then Crashed else Completed(errors + last.errors), fsn)
  {
    TestDocumentsNext(test, fs, docs, i);
  }

  /** After the first crash no further document is tested: the run ends as it was then. */
  lemma {:induction false} StopsAfterCrash(test: DocTest, fs: Fs, docs: seq<Doc>, k: nat)
    requires k <= |docs| && TestDocuments(test, fs, docs[..k]).0.Crashed?
    ensures TestDocuments(test, fs, docs) == TestDocuments(test, fs, docs[..k])
    decreases |docs| - k
  {
    if k < |docs| {
      TestDocumentsNext(test, fs, docs, k);
      StopsAfterCrash(test, fs, docs, k + 1);
    } else {
      assert docs[..k] == docs;
    }
  }

  /** The tree each document is tested on: the one the documents before it left behind. */
  function TreeBefore(test: DocTest, fs: Fs, docs: seq<Doc>, k: nat): Fs
    requires k <= |docs|
  {
    TestDocuments(test, fs, docs[..k]).1
  }

  /**
   * The run passes exactly when every document, tested on the tree the
   * ones before it left, completes without an error.
   */
  lemma {:induction false} SuitePassesIff(test: DocTest, fs: Fs, docs: seq<Doc>)
    ensures TestDocuments(test, fs, docs).0 == Completed(0) <==>
              forall k :: 0 <= k < |docs| ==>
                test(TreeBefore(test, fs, docs, k), docs[k]).0 == Completed(0)
    decreases |docs|
  {
    if docs != [] {
      var n := |docs| - 1;
      var init := docs[..n];
      SuitePassesIff(test, fs, init);
      LastPasses(test, fs, docs);
      if TestDocuments(test, fs, docs).0 == Completed(0) {
        forall k | 0 <= k < |docs| ensures test(TreeBefore(test, fs, docs, k), docs[k]).0 == Completed(0) {
          if k < n {
            InitAgrees(test, fs, docs, k);
            assert test(TreeBefore(test, fs, init, k), init[k]).0 == Completed(0);
          }
        }
      }
      if forall k :: 0 <= k < |docs| ==> test(TreeBefore(test, fs, docs, k), docs[k]).0 == Completed(0) {
        forall k | 0 <= k < n ensures test(TreeBefore(test, fs, init, k), init[k]).0 == Completed(0) {
          InitAgrees(test, fs, docs, k);
          assert test(TreeBefore(test, fs, docs, k), docs[k]).0 == Completed(0);
        }
        assert test(TreeBefore(test, fs, docs, n), docs[n]).0 == Completed(0);
      }
    }
  }

  /** The run passes when the documents before the last pass and the last one passes too. */
  lemma LastPasses(test: DocTest, fs: Fs, docs: seq<Doc>)
    requires docs != []
    ensures var n := |docs| - 1;
            var (before, fs1) := TestDocuments(test, fs, docs[..n]);
            TreeBefore(test, fs, docs, n) == fs1
            && (TestDocuments(test, fs, docs).0 == Completed(0)
                <==> before == Completed(0) && test(fs1, docs[n]).0 == Completed(0))
  {
    var n := |docs| - 1;
    var (before, fs1) := TestDocuments(test, fs, docs[..n]);
    var (last, fs2) := test(fs1, docs[n]);
    assert TestDocuments(test, fs, docs)
           == if before.Crashed? then (Crashed, fs1)
              else (if last.Crashed? then Crashed else Completed(before.errors + last.errors), fs2);
  }

  /** Dropping the last document changes neither an earlier document nor the tree it is tested on. */
  lemma InitAgrees(test: DocTest, fs: Fs, docs: seq<Doc>, k: nat)
    requires k < |docs| - 1
    ensures var init := docs[..|docs| - 1];
            init[k] == docs[k] && TreeBefore(test, fs, init, k) == TreeBefore(test, fs, docs, k)
  {
    assert docs[..|docs| - 1][..k] == docs[..k];
  }

  /** Errors only add up: every prefix of the documents counts at most the errors of the whole. */
  lemma {:induction false} ErrorsOnlyAddUp(test: DocTest, fs: Fs, docs: seq<Doc>, k: nat)
    requires k <= |docs| && TestDocuments(test, fs, docs).0.Completed?
    ensures TestDocuments(test, fs, docs[..k]).0.Completed?
    ensures TestDocuments(test, fs, docs[..k]).0.errors <= TestDocuments(test, fs, docs).0.errors
    decreases |docs|
  {
    if k < |docs| {
      var n := |docs| - 1;
      var init := docs[..n];
      TestDocumentsNext(test, fs, docs, n);
      assert docs[..n + 1] == docs;
      assert init[..k] == docs[..k];
      var (before, fs1) := TestDocuments(test, fs, init);
      var (last, fs2) := test(fs1, docs[n]);
      assert before.Completed?;
      assert TestDocuments(test, fs, docs).0 == Completed(before.errors + last.errors);
      ErrorsOnlyAddUp(test, fs, init, k);
    } else {
      assert docs[..k] == docs;
    }
  }

  /**
   * A document without a single fence passes: it counts no error and only
   * its own directory is created.
   */
  lemma UnfencedDocumentPasses(cfg: Config, cwd: string, fs: Fs, doc: Doc)
    requires CreateDirectory(fs, cwd, TestDirName(doc.name)).Some?
    requires var created := CreateDirectory(fs, cwd, TestDirName(doc.name)).value;
             var abs := Resolve(Resolve(cwd, TestDirName(doc.name)), doc.path);
             abs in created.files && forall t :: t in ReadLines(created.files[abs]) ==> !StartsWith(Strip(t), "```")
    ensures TestDocument(cfg, cwd, fs, doc) == (Completed(0), CreateDirectory(fs, cwd, TestDirName(doc.name)).value)
  {
    var dir := TestDirName(doc.name);
    var created := CreateDirectory(fs, cwd, dir).value;
    var abs := Resolve(Resolve(cwd, dir), doc.path);
    ParsedFileBody(ReadLines(created.files[abs]));
    NoFencesNoErrors(cfg, Resolve(cwd, dir), created, ParseAll(ReadLines(created.files[abs])));
  }

  /** A document the tree does not hold crashes the run, after its directory is created. */
  lemma MissingDocumentCrashes(cfg: Config, cwd: string, fs: Fs, doc: Doc)
    requires CreateDirectory(fs, cwd, TestDirName(doc.name)).Some?
    requires var created := CreateDirectory(fs, cwd, TestDirName(doc.name)).value;
             Resolve(Resolve(cwd, TestDirName(doc.name)), doc.path) !in created.files
    ensures TestDocument(cfg, cwd, fs, doc).0 == Crashed
  {
  }

  /** A run without documents passes and only creates the build directory. */
  lemma EmptySuitePasses(cfg: Config, cwd: string, fs: Fs, buildDir: string)
    requires CreateDirectory(fs, cwd, buildDir).Some?
    ensures Suite(cfg, cwd, fs, buildDir, []) == (Completed(0), CreateDirectory(fs, cwd, buildDir).value)
  {
  }
}
