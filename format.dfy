/**
 * The formatting check run on every file a document creates
 * (suremd.py:250-294), and the set of extensions it is enabled for
 * (suremd.py:60-62). Running a formatter is an oracle: it maps the
 * formatter's command and the file contents to the decoded output, or to
 * None when that output is not valid UTF-8 and `decode()` raises.
 */
module Formatting {
  import opened Wrappers
  import opened Text

  datatype Formatter = ClangFormat | Black | Shfmt

  /** The shell command each formatter is run as. */
  function CommandOf(f: Formatter): string {
    match f
    case ClangFormat => "clang-format"
    case Black => "black -"
    case Shfmt => "shfmt -i=4 -"
  }

  /**
   * The oracle standing for running a shell command with some contents on
   * its standard input: the decoded output, or None when it is not valid UTF-8.
   */
  type FormatOracle = (string, string) -> Option<string>

  /** `name.split(".")[-1]`: the text after the last dot. */
  function Extension(name: string): (ext: string)
    ensures '.' !in ext && |ext| <= |name| && ext == name[|name| - |ext|..]
    ensures '.' in name ==> |ext| < |name| && name[|name| - |ext| - 1] == '.'
    ensures '.' !in name ==> ext == name
  {
    var pieces := Split(name, '.');
    SplitLast(name, '.');
    SplitPiecesFree(name, '.');
    if '.' !in name then SplitNoSep(name, '.'); name else pieces[|pieces| - 1]
  }

  /** The pieces of one `--format` argument: `block.split(",")`. */
  function FormatPieces(arg: string): seq<string> {
    Split(arg, ',')
  }

  /** The enabled set: every comma-separated piece of every `--format` argument. */
  function EnabledFor(args: seq<string>): (r: set<string>)
    ensures forall ext :: ext in r <==>
              exists i, j :: 0 <= i < |args| && 0 <= j < |FormatPieces(args[i])| && FormatPieces(args[i])[j] == ext
  {
    if args == [] then {}
    else
      var rest := EnabledFor(args[1..]);
      var here := set j | 0 <= j < |FormatPieces(args[0])| :: FormatPieces(args[0])[j];
      var r := here + rest;
      assert forall ext :: ext in r <==>
               exists i, j :: 0 <= i < |args| && 0 <= j < |FormatPieces(args[i])| && FormatPieces(args[i])[j] == ext by {
        forall ext ensures ext in r <==>
                 exists i, j :: 0 <= i < |args| && 0 <= j < |FormatPieces(args[i])| && FormatPieces(args[i])[j] == ext {
          if ext in rest {
            var i, j :| 0 <= i < |args[1..]| && 0 <= j < |FormatPieces(args[1..][i])| && FormatPieces(args[1..][i])[j] == ext;
            assert args[1..][i] == args[i + 1];
          }
          if exists i, j :: 0 <= i < |args| && 0 <= j < |FormatPieces(args[i])| && FormatPieces(args[i])[j] == ext {
            var i, j :| 0 <= i < |args| && 0 <= j < |FormatPieces(args[i])| && FormatPieces(args[i])[j] == ext;
            if i > 0 {
              assert args[1..][i - 1] == args[i];
            }
          }
        }
      }
      r
  }

  /** The formatter an enabled extension is handled by, if any. */
  function FormatterFor(ext: string): Option<Formatter> {
    if ext in {"c", "h", "cpp"} then Some(ClangFormat)
    else if ext == "py" then Some(Black)
    else if ext == "sh" then Some(Shfmt)
    else None
  }

  /**
   * The formatter `check_formatting` runs on `name`: none for a name without
   * a dot or whose extension is not enabled (and `all` is not given),
   * otherwise the one for its extension.
   */
  function SelectFormatter(name: string, enabled: set<string>): (r: Option<Formatter>)
    ensures r.Some? ==> '.' in name && (Extension(name) in enabled || "all" in enabled)
    ensures '.' in name && (Extension(name) in enabled || "all" in enabled) ==> r == FormatterFor(Extension(name))
  {
    if '.' !in name then None
    else
      var ext := Extension(name);
      if ext !in enabled && "all" !in enabled then None
      else FormatterFor(ext)
  }

  /** What a formatting check comes to. */
  datatype FormatCheck = NotChecked | Unchanged | Warning | Undecodable

  /** `check_formatting(name, contents)`: a warning exactly when the formatter's output differs. */
  function CheckFormatting(format: FormatOracle, enabled: set<string>, name: string, contents: string): (r: FormatCheck)
    ensures r == NotChecked <==> SelectFormatter(name, enabled).None?
    ensures r == Warning <==> exists f :: SelectFormatter(name, enabled) == Some(f)
                                         && format(CommandOf(f), contents).Some? && format(CommandOf(f), contents).value != contents
    ensures r == Undecodable <==> exists f :: SelectFormatter(name, enabled) == Some(f) && format(CommandOf(f), contents).None?
  {
    match SelectFormatter(name, enabled)
    case None => NotChecked
    case Some(f) =>
      match format(CommandOf(f), contents)
      case None => Undecodable
      case Some(out) => if out != contents then Warning else Unchanged
  }

  /** Only the extension matters: names with the same extension get the same formatter. */
  lemma SelectionByExtension(a: string, b: string, enabled: set<string>)
    requires '.' in a && '.' in b && Extension(a) == Extension(b)
    ensures SelectFormatter(a, enabled) == SelectFormatter(b, enabled)
  {
  }

  /** Enabling more extensions never turns a check off. */
  lemma SelectionMonotone(name: string, e1: set<string>, e2: set<string>)
    requires e1 <= e2
    ensures SelectFormatter(name, e1).Some? ==> SelectFormatter(name, e2) == SelectFormatter(name, e1)
  {
  }

  /** `all` enables every extension the tool knows a formatter for. */
  lemma AllEnablesEverything(name: string, enabled: set<string>)
    requires "all" in enabled && '.' in name
    ensures SelectFormatter(name, enabled) == FormatterFor(Extension(name))
  {
  }

  /** A name without a dot is never formatted, whatever is enabled. */
  lemma NoDotNoFormatter(format: FormatOracle, enabled: set<string>, name: string, contents: string)
    requires '.' !in name
    ensures CheckFormatting(format, enabled, name, contents) == NotChecked
  {
  }

  /** The extension is whatever follows the last dot, whatever comes before it. */
  lemma {:induction false} ExtensionOf(stem: string, ext: string)
    requires '.' !in ext
    ensures Extension(stem + "." + ext) == ext
  {
    var s := stem + "." + ext;
    var e := Extension(s);
    assert s[|stem|] == '.';
    forall j | |stem| < j < |s| ensures s[j] == ext[j - |stem| - 1] { }
    forall j | |s| - |e| <= j < |s| ensures e[j - (|s| - |e|)] == s[j] { }
    assert e == s[|stem| + 1..] == ext;
  }

  /** Only the last dot counts: `lib.c.py` is a Python file. */
  lemma LastDotCounts(name: string)
    requires name == "lib.c.py"
    ensures SelectFormatter(name, {"py"}) == Some(Black)
    ensures SelectFormatter(name, {"c"}).None?
  {
    assert name == "lib.c" + "." + "py";
    ExtensionOf("lib.c", "py");
  }

  /** `--format c,h --format py` enables the three extensions and nothing else. */
  lemma EnabledExample(args: seq<string>)
    requires args == ["c,h", "py"]
    ensures EnabledFor(args) == {"c", "h", "py"}
  {
    ExamplePieces(args[0], args[1]);
    var r := EnabledFor(args);
    assert "c" in r by { assert FormatPieces(args[0])[0] == "c"; }
    assert "h" in r by { assert FormatPieces(args[0])[1] == "h"; }
    assert "py" in r by { assert FormatPieces(args[1])[0] == "py"; }
  }

  lemma ExamplePieces(a: string, b: string)
    requires a == "c,h" && b == "py"
    ensures FormatPieces(a) == ["c", "h"] && FormatPieces(b) == ["py"]
  {
    SplitNoSep("h", ',');
    SplitNoSep(b, ',');
    SplitCons("c", ',', "h");
    assert a == "c" + [','] + "h";
  }
}
