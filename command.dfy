/**
 * The command extractor of a console block (suremd.py:165): the first group
 * of `^\$\s*(.+)$` searched without MULTILINE, so `^` is the start of the
 * line and `$` its end or the position before a final line feed.
 */
module CommandLine {
  import opened Wrappers
  import opened Text

  /**
   * The line matches the pattern with `\s*` taking `k` characters after the
   * `$` and the group `(.+)` ending at index `e`.
   */
  predicate CommandSplit(line: string, k: nat, e: nat) {
    1 + k < e <= |line| && line[0] == '$' && AllSpace(line[1..1 + k])
    && '\n' !in line[1 + k..e]
    && (e == |line| || (e == |line| - 1 && line[e] == '\n'))
  }

  /** Where `$` can stand after a non-empty `.+`: the end, or before a final line feed. */
  function GroupEnd(line: string): nat {
    if |line| > 0 && line[|line| - 1] == '\n' then |line| - 1 else |line|
  }

  /**
   * `re.findall(r"^\$\s*(.+)$", line)[0]`, or None when findall finds
   * nothing. `\s*` is greedy: it takes the longest whitespace run that
   * still leaves a non-empty group (at most all but one character before
   * the end), so the group starts with whitespace only when it is a single
   * character. ExtractCommandMeaning states what this yields.
   */
  function ExtractCommand(line: string): (r: Option<string>) {
    if |line| == 0 || line[0] != '$' then None
    else
      var e := GroupEnd(line);
      var w := LeadingSpaces(line[1..]);
      if e < 2 then None
      else
        var k: nat := if w < e - 2 then w else e - 2;
        if '\n' in line[1 + k..e] then None else Some(line[1 + k..e])
  }

  /**
   * The extractor finds a command exactly when the pattern matches the
   * line, the command is the group of one such match, and it starts with
   * whitespace only when it is a single character.
   */
  lemma ExtractCommandMeaning(line: string)
    ensures var r := ExtractCommand(line);
            && (r.None? <==> forall k: nat, e: nat :: !CommandSplit(line, k, e))
            && (r.Some? ==> exists k: nat, e: nat :: CommandSplit(line, k, e) && r.value == line[1 + k..e])
            && (r.Some? ==> |r.value| == 1 || !IsSpace(r.value[0]))
  {
    if |line| > 0 && line[0] == '$' {
      var e := GroupEnd(line);
      var w := LeadingSpaces(line[1..]);
      if e < 2 {
        forall k': nat, e': nat ensures !CommandSplit(line, k', e') {
          SplitShape(line, k', e');
        }
      } else {
        var k: nat := if w < e - 2 then w else e - 2;
        var spaces, run := line[1..1 + k], line[1..][..w];
        forall j | 0 <= j < |spaces| ensures IsSpace(spaces[j]) {
          assert spaces[j] == run[j];
        }
        if '\n' in line[1 + k..e] {
          forall k': nat, e': nat ensures !CommandSplit(line, k', e') {
            SplitShape(line, k', e');
            NewlineInWiderRange(line, 1 + k', 1 + k, e);
          }
        } else {
          assert CommandSplit(line, k, e);
          if w < e - 2 {
            assert w < |line[1..]| && !IsSpace(line[1..][w]);
            assert line[1 + k..e][0] == line[1..][w];
          } else {
            assert |line[1 + k..e]| == 1;
          }
        }
      }
    }
  }

  /** Any split ends at GroupEnd and starts inside the opening whitespace run. */
  lemma SplitShape(line: string, k: nat, e: nat)
    ensures CommandSplit(line, k, e) ==>
              e == GroupEnd(line) && k + 2 <= e && k <= LeadingSpaces(line[1..])
  {
    if CommandSplit(line, k, e) {
      assert e == |line| ==> line[|line| - 1] == line[1 + k..e][|line| - 2 - k];
      var w := LeadingSpaces(line[1..]);
    }
  }

  lemma NewlineInWiderRange(s: string, a: nat, b: nat, e: nat)
    ensures a <= b <= e <= |s| && '\n' in s[b..e] ==> '\n' in s[a..e]
  {
    if a <= b <= e <= |s| && '\n' in s[b..e] {
      var j :| 0 <= j < |s[b..e]| && s[b..e][j] == '\n';
      assert s[a..e][b - a + j] == '\n';
    }
  }

  /**
   * A prompt line written as `$`, some whitespace, a command that does not
   * start with whitespace, and an optional line feed yields that command.
   */
  lemma ExtractPrompt(spaces: string, command: string, eol: string)
    requires AllSpace(spaces)
    requires command != [] && '\n' !in command && !IsSpace(command[0])
    requires eol == "" || eol == "\n"
    ensures ExtractCommand("$" + spaces + command + eol) == Some(command)
  {
    var line := "$" + spaces + command + eol;
    assert line[1..] == spaces + command + eol;
    assert line[1..][|spaces|] == command[0];
    assert line[|spaces| + |command|] == command[|command| - 1];
    assert line[1 + |spaces|..1 + |spaces| + |command|] == command;
  }
}
