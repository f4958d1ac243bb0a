/**
 * The file marker on the first line of a file block (suremd.py:221-237):
 * `re.findall(r"^\S*\s*File:\s+(((?:\w+/)*)[\w.]+)\s*.*$", line)[0]`,
 * which yields the file name (group 1) and its directory part (group 2).
 *
 * The search follows Python's backtracking order. `^\S*\s*` may stop at any
 * index up to the end of the opening word and the whitespace after it, and
 * the engine tries those indexes from the last to the first, so `File:` is
 * taken at the last index where the rest of the pattern succeeds. `\s+`
 * takes the whole whitespace run after `File:` (giving any back would leave
 * the name starting at whitespace), and the name is the longest prefix of the
 * rest shaped like `(\w+/)*[\w.]+` after which `\s*.*$` still matches.
 */
module FileMarker {
  import opened Wrappers
  import opened Text

  /** `(\w+/)*`: word runs, each closed by a slash. */
  predicate IsDirPart(d: string) {
    (d == [] || d[|d| - 1] == '/')
    && (forall i :: 0 <= i < |d| ==> IsWordChar(d[i]) || d[i] == '/')
    && (forall i :: 0 <= i < |d| && d[i] == '/' ==> i > 0 && IsWordChar(d[i - 1]))
  }

  /** `[\w.]+`. */
  predicate IsBaseName(b: string) {
    |b| > 0 && forall i :: 0 <= i < |b| ==> IsWordChar(b[i]) || b[i] == '.'
  }

  /** The index just after the last slash of `f`, 0 when there is none. */
  function DirEnd(f: string): (k: nat)
    ensures k <= |f| && '/' !in f[k..] && (k == 0 || f[k - 1] == '/')
  {
    if f == [] then 0
    else if f[|f| - 1] == '/' then |f|
    else
      var k := DirEnd(f[..|f| - 1]);
      assert f[k..] == f[..|f| - 1][k..] + [f[|f| - 1]];
      k
  }

  /** `f` matches `(\w+/)*[\w.]+`; the group of `(\w+/)*` is then `f[..DirEnd(f)]`. */
  predicate IsPath(f: string) {
    IsDirPart(f[..DirEnd(f)]) && IsBaseName(f[DirEnd(f)..])
  }

  /** `\s*.*$` matches `t` in full: every line feed but a final one lies in the opening whitespace. */
  predicate TailMatches(t: string) {
    forall i :: 0 <= i < |t| - 1 && t[i] == '\n' ==> AllSpace(t[..i])
  }

  /** The name may be the first `m` characters of `r`. */
  predicate PathFits(r: string, m: nat) {
    m <= |r| && IsPath(r[..m]) && TailMatches(r[m..])
  }

  /** The longest name of at most `n` characters at the start of `r`. */
  function LongestPath(r: string, n: nat): (res: Option<string>)
    requires n <= |r|
    ensures res.Some? ==> |res.value| <= n && res.value == r[..|res.value|] && PathFits(r, |res.value|)
    ensures res.Some? ==> forall m :: |res.value| < m <= n ==> !PathFits(r, m)
    ensures res.None? ==> forall m :: 0 <= m <= n ==> !PathFits(r, m)
  {
    if n == 0 then
      assert !IsBaseName(r[..0][DirEnd(r[..0])..]);
      None
    else if PathFits(r, n) then Some(r[..n])
    else LongestPath(r, n - 1)
  }

  /** What follows `File:`: `\s+` and the name. */
  function AfterKeyword(rest: string): (r: Option<string>)
    ensures r.Some? ==> IsPath(r.value)
  {
    var s := LeadingSpaces(rest);
    if s == 0 then None else LongestPath(rest[s..], |rest| - s)
  }

  /** `File:` stands at index `p`. */
  predicate KeywordAt(line: string, p: nat) {
    p + 5 <= |line| && line[p] == 'F' && line[p + 1] == 'i' && line[p + 2] == 'l'
    && line[p + 3] == 'e' && line[p + 4] == ':'
  }

  /** The name the pattern yields when `File:` is taken at index `p`. */
  function MarkerAt(line: string, p: nat): (r: Option<string>)
    ensures r.Some? ==> IsPath(r.value)
  {
    if KeywordAt(line, p) then AfterKeyword(line[p + 5..]) else None
  }

  /** The last index that `^\S*\s*` can reach: the opening word and the whitespace after it. */
  function PrefixLimit(line: string): (n: nat)
    ensures n <= |line|
  {
    var w := LeadingNonSpaces(line);
    w + LeadingSpaces(line[w..])
  }

  /** `line[..p]` matches `\S*\s*`. */
  predicate PrefixForm(line: string, p: nat) {
    p <= |line| && exists i :: 0 <= i <= p && NoSpace(line[..i]) && AllSpace(line[i..p])
  }

  /** The indexes `^\S*\s*` can stop at are exactly those up to PrefixLimit. */
  lemma PrefixLimitIsReach(line: string, p: nat)
    ensures PrefixForm(line, p) <==> p <= PrefixLimit(line)
  {
    var w := LeadingNonSpaces(line);
    var s := LeadingSpaces(line[w..]);
    if p <= PrefixLimit(line) {
      if p <= w {
        assert NoSpace(line[..p]) by { assert line[..p] == line[..w][..p]; }
        assert AllSpace(line[p..p]);
      } else {
        forall j | 0 <= j < p - w ensures IsSpace(line[w..p][j]) {
          assert line[w..p][j] == line[w..][..s][j];
        }
      }
    }
    if PrefixForm(line, p) {
      var i :| 0 <= i <= p && NoSpace(line[..i]) && AllSpace(line[i..p]);
      PrefixBound(line, i, p);
    }
  }

  /** A `\S*\s*` split of `line[..p]` at `i` cannot pass PrefixLimit. */
  lemma PrefixBound(line: string, i: nat, p: nat)
    ensures i <= p <= |line| && NoSpace(line[..i]) && AllSpace(line[i..p]) ==> p <= PrefixLimit(line)
  {
    var w := LeadingNonSpaces(line);
    var s := LeadingSpaces(line[w..]);
    assert w < i <= p <= |line| ==> line[..i][w] == line[w];
    assert i <= w && w + s < p <= |line| ==> line[w..][s] == line[i..p][w + s - i];
  }

  /** The index of the last present entry of `cs`, if any. */
  function LastPresent(cs: seq<Option<string>>): (r: Option<nat>)
    ensures r.Some? ==> r.value < |cs| && cs[r.value].Some? && forall j :: r.value < j < |cs| ==> cs[j].None?
    ensures r.None? ==> forall j :: 0 <= j < |cs| ==> cs[j].None?
  {
    if cs == [] then None
    else if cs[|cs| - 1].Some? then Some(|cs| - 1)
    else
      var r := LastPresent(cs[..|cs| - 1]);
      assert forall j :: 0 <= j < |cs| - 1 ==> cs[..|cs| - 1][j] == cs[j];
      r
  }

  /** What the pattern yields with `File:` taken at each reachable index, in order. */
  function Attempts(line: string): (cs: seq<Option<string>>)
    ensures |cs| == PrefixLimit(line) + 1
    ensures forall p :: 0 <= p < |cs| ==> cs[p] == MarkerAt(line, p)
  {
    seq(PrefixLimit(line) + 1, p requires 0 <= p => MarkerAt(line, p))
  }

  /**
   * The position the engine takes `File:` at: the last one up to
   * PrefixLimit at which the whole pattern matches.
   */
  function MarkerPosition(line: string): (r: Option<nat>)
    ensures r.None? <==> forall p :: 0 <= p <= PrefixLimit(line) ==> MarkerAt(line, p).None?
    ensures r.Some? ==> r.value <= PrefixLimit(line) && MarkerAt(line, r.value).Some?
                        && forall p :: r.value < p <= PrefixLimit(line) ==> MarkerAt(line, p).None?
  {
    var cs := Attempts(line);
    var r := LastPresent(cs);
    assert r.None? <==> forall p :: 0 <= p <= PrefixLimit(line) ==> MarkerAt(line, p).None? by {
      if r.Some? { assert cs[r.value] == MarkerAt(line, r.value); }
    }
    r
  }

  /** Group 2 of the pattern: the name up to and including its last slash. */
  function DirName(file: string): (dir: string)
    requires IsPath(file)
    ensures |dir| <= |file| && dir == file[..|dir|] && IsDirPart(dir) && '/' !in file[|dir|..]
  {
    file[..DirEnd(file)]
  }

  /** A name holds only word characters, dots and slashes. */
  lemma PathChars(file: string)
    requires IsPath(file)
    ensures forall i :: 0 <= i < |file| ==> IsWordChar(file[i]) || file[i] == '.' || file[i] == '/'
  {
    var k := DirEnd(file);
    var d, b := file[..k], file[k..];
    assert IsDirPart(d) && IsBaseName(b);
    forall i | 0 <= i < |file| ensures IsWordChar(file[i]) || file[i] == '.' || file[i] == '/' {
      if i < k {
        assert file[i] == d[i];
      } else {
        assert file[i] == b[i - k];
      }
    }
  }

  /**
   * The pair (file name, directory name) of the marker, or None when the
   * line carries no marker.
   */
  function ParseMarker(line: string): (r: Option<(string, string)>)
    ensures r.Some? <==> MarkerPosition(line).Some?
    ensures r.Some? ==> MarkerAt(line, MarkerPosition(line).value) == Some(r.value.0)
    ensures r.Some? ==> IsPath(r.value.0) && r.value.1 == DirName(r.value.0)
  {
    match MarkerPosition(line)
    case None => None
    case Some(p) =>
      var file := MarkerAt(line, p).value;
      Some((file, DirName(file)))
  }

  /** A marker found at the last reachable index is the one the engine takes. */
  lemma MarkerAtLimit(line: string, file: string)
    requires MarkerAt(line, PrefixLimit(line)) == Some(file)
    ensures ParseMarker(line) == Some((file, DirName(file)))
  {
    var pos := MarkerPosition(line);
    assert pos.Some?;
  }

  /** The usual marker: a comment leader, `File:`, and a path with a directory. */
  lemma CommentedMarkerExample(line: string)
    requires line == "// File: src/main.c\n"
    ensures ParseMarker(line) == Some(("src/main.c", "src/"))
  {
    ExamplePrefix(line);
    ExampleMarkerAt(line);
    MarkerAtLimit(line, "src/main.c");
    ExampleDirName("src/main.c");
  }

  lemma ExampleDirName(f: string)
    requires f == "src/main.c"
    ensures IsPath(f) && DirName(f) == "src/"
  {
    assert f[3] == '/' && '/' !in f[4..];
    assert DirEnd(f) == 4;
    var d := f[..4];
    assert d == "src/" && d[0] == 's' && d[1] == 'r' && d[2] == 'c' && d[3] == '/';
    assert IsDirPart(d) by {
      forall i | 0 <= i < |d| ensures IsWordChar(d[i]) || d[i] == '/' {
        if i < 3 { assert IsWordChar(d[i]); }
      }
    }
    assert IsBaseName(f[4..]);
  }

  lemma ExamplePrefix(line: string)
    requires line == "// File: src/main.c\n"
    ensures PrefixLimit(line) == 3
  {
    assert line[..2] == "//";
    LeadingNonSpacesIs(line, 2);
    assert line[2..][..1] == " " && line[2..][1] == 'F';
    LeadingSpacesIs(line[2..], 1);
  }

  lemma ExampleMarkerAt(line: string)
    requires line == "// File: src/main.c\n"
    ensures MarkerAt(line, 3) == Some("src/main.c")
  {
    assert KeywordAt(line, 3);
    ExampleAfterKeyword(line[8..]);
  }

  lemma ExampleAfterKeyword(rest: string)
    requires rest == " src/main.c\n"
    ensures AfterKeyword(rest) == Some("src/main.c")
  {
    assert rest[..1] == " " && rest[1] == 's';
    LeadingSpacesIs(rest, 1);
    ExamplePath(rest[1..], |rest| - 1);
  }

  lemma ExamplePath(r: string, n: nat)
    requires r == "src/main.c\n" && n == 11
    ensures LongestPath(r, n) == Some("src/main.c")
  {
    var f := r[..10];
    assert f == "src/main.c";
    ExampleDirName(f);
    assert TailMatches(r[10..]);
    assert PathFits(r, 10);
    assert !PathFits(r, 11) by { assert DirEnd(r[..11]) == 4; assert r[..11][4..][6] == '\n'; }
  }
}
