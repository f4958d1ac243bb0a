/**
 * The expected-output matcher of a console block (suremd.py:199-219). An
 * expected line, stripped of its trailing line feeds, becomes the pattern
 * `"^" + re.escape(line) + "$"` in which every `\.\.\.` is then replaced
 * by `.*`; the pattern is searched in the whole of the command's stdout with
 * `re.MULTILINE`, so `^` and `$` stand at line boundaries.
 */
module Expected {
  import opened Wrappers
  import opened Text

  /** One unit of an expected line: a literal character or an elided run. */
  datatype Token = Lit(c: char) | Wild

  /** The text starts with `...`. */
  predicate StartsWithEllipsis(e: string) {
    |e| >= 3 && e[0] == '.' && e[1] == '.' && e[2] == '.'
  }

  /** The expected line read left to right, each non-overlapping `...` becoming a wildcard. */
  function Tokens(e: string): seq<Token>
    decreases |e|
  {
    if StartsWithEllipsis(e) then [Wild] + Tokens(e[3..])
    else if e == [] then []
    else [Lit(e[0])] + Tokens(e[1..])
  }

  // ---------------------------------------------------------------------
  // The regular expression as the source writes it

  /** The characters `re.escape` prefixes with a backslash (Python 3.7 and later). */
  const Special: set<char> :=
    {'(', ')', '[', ']', '{', '}', '?', '*', '+', '-', '|', '^', '$', '\\', '.',
     '&', '~', '#', ' ', '\t', '\n', '\r', '\U{0B}', '\U{0C}'}

  function EscapeChar(c: char): string {
    if c in Special then ['\\', c] else [c]
  }

  /** `re.escape(e)`. */
  function Escape(e: string): string {
    if e == [] then [] else EscapeChar(e[0]) + Escape(e[1..])
  }

  /** The text `\.\.\.` that three escaped dots become. */
  const EscapedDots: string := "\\.\\.\\."

  /** An escaped dot `\.` stands at index `i` of `s`. */
  predicate EscapedDotAt(s: string, i: nat) {
    i + 1 < |s| && s[i] == '\\' && s[i + 1] == '.'
  }

  predicate TwoEscapedDots(s: string) {
    EscapedDotAt(s, 0) && EscapedDotAt(s, 2)
  }

  predicate ThreeEscapedDots(s: string) {
    EscapedDotAt(s, 0) && EscapedDotAt(s, 2) && EscapedDotAt(s, 4)
  }

  /** `s.replace(r"\.\.\.", r".*")`: every non-overlapping occurrence, left to right. */
  function ReplaceDots(s: string): string
    decreases |s|
  {
    if ThreeEscapedDots(s) then ".*" + ReplaceDots(s[6..])
    else if s == [] then []
    else [s[0]] + ReplaceDots(s[1..])
  }

  /**
   * The pattern string the source searches for (suremd.py:205-206): the
   * escaped line between the anchors, with the replacement made over the
   * whole pattern, anchors included.
   */
  function ExpectedRegex(e: string): string {
    ReplaceDots("^" + Escape(e) + "$")
  }

  /** The anchors hold no escaped dot, so replacing over the pattern replaces over the escaped line only. */
  lemma ReplaceDotsAnchors(x: string)
    ensures ReplaceDots("^" + x + "$") == "^" + ReplaceDots(x) + "$"
  {
    var s := "^" + x + "$";
    assert !ThreeEscapedDots(s) && s[1..] == x + "$";
    ReplaceDotsDollar(x);
  }

  /** An escaped dot never ends on a trailing `$`, so replacing passes over it. */
  lemma {:induction false} ReplaceDotsDollar(x: string)
    ensures ReplaceDots(x + "$") == ReplaceDots(x) + "$"
    decreases |x|
  {
    var s := x + "$";
    if x == [] {
      assert !ThreeEscapedDots(s) && s[1..] == [];
    } else if ThreeEscapedDots(x) {
      assert s[..6] == x[..6];
      assert ThreeEscapedDots(s);
      assert s[6..] == x[6..] + "$";
      ReplaceDotsDollar(x[6..]);
    } else {
      assert !ThreeEscapedDots(s) by {
        if ThreeEscapedDots(s) {
          assert s[5] == '.' && s[|s| - 1] == '$';
          assert s[..6] == x[..6];
          assert ThreeEscapedDots(x);
        }
      }
      assert s[1..] == x[1..] + "$";
      ReplaceDotsDollar(x[1..]);
    }
  }

  /** How a token is written in a regular expression. */
  function RenderToken(t: Token): string {
    match t
    case Wild => ".*"
    case Lit(c) => EscapeChar(c)
  }

  function Render(ts: seq<Token>): string {
    if ts == [] then [] else RenderToken(ts[0]) + Render(ts[1..])
  }

  function Prepend(t: Token, rest: Option<seq<Token>>): Option<seq<Token>> {
    match rest
    case None => None
    case Some(ts) => Some([t] + ts)
  }

  /**
   * Reads back the subset of regular-expression syntax that the rendered
   * patterns use: an escaped metacharacter, `.*`, and an ordinary character.
   * Anything else is outside the subset and yields None.
   */
  function ParseRegex(r: string): Option<seq<Token>>
    decreases |r|
  {
    if r == [] then Some([])
    else if r[0] == '\\' then
      if |r| >= 2 && r[1] in Special then Prepend(Lit(r[1]), ParseRegex(r[2..])) else None
    else if r[0] == '.' then
      if |r| >= 2 && r[1] == '*' then Prepend(Wild, ParseRegex(r[2..])) else None
    else if r[0] in Special then None
    else Prepend(Lit(r[0]), ParseRegex(r[1..]))
  }

  /** Reading a rendered pattern gives back its tokens. */
  lemma {:induction false} ParseRender(ts: seq<Token>)
    ensures ParseRegex(Render(ts)) == Some(ts)
  {
    if ts != [] {
      ParseRender(ts[1..]);
      var rest := Render(ts[1..]);
      assert Render(ts) == RenderToken(ts[0]) + rest;
      assert ts == [ts[0]] + ts[1..];
      match ts[0]
      case Wild =>
        assert (".*" + rest)[0] == '.' && (".*" + rest)[1] == '*';
        assert (".*" + rest)[2..] == rest;
      case Lit(c) =>
        if c in Special {
          assert (['\\', c] + rest)[2..] == rest;
        } else {
          assert ([c] + rest)[1..] == rest;
        }
    }
  }

  /** An escaped text never starts with an unescaped dot. */
  lemma EscapeStart(e: string)
    ensures Escape(e) != [] ==> Escape(e)[0] != '.'
    ensures |Escape(e)| >= 2 && Escape(e)[0] == '\\' && Escape(e)[1] == '.' ==> e != [] && e[0] == '.'
  {
    if e != [] {
      assert Escape(e) == EscapeChar(e[0]) + Escape(e[1..]);
      if e[0] !in Special {
        assert Escape(e)[0] == e[0];
      }
    }
  }

  /** Escaped text starts with two escaped dots only where the text starts with two dots. */
  lemma EscapeStartsWithTwoDots(e: string)
    ensures TwoEscapedDots(Escape(e)) ==> |e| >= 2 && e[0] == '.' && e[1] == '.'
  {
    var x := Escape(e);
    EscapeStart(e);
    if TwoEscapedDots(x) {
      var y := Escape(e[1..]);
      assert x == EscapeChar('.') + y;
      assert y[0] == x[2] && y[1] == x[3];
      EscapeStart(e[1..]);
    }
  }

  /** Three escaped dots open the escape of a line that opens with `...`. */
  lemma EscapeEllipsis(e: string)
    requires StartsWithEllipsis(e)
    ensures Escape(e) == EscapedDots + Escape(e[3..])
  {
    assert Escape(e) == "\\." + Escape(e[1..]);
    assert Escape(e[1..]) == "\\." + Escape(e[1..][1..]);
    assert e[1..][1..] == e[2..];
    assert Escape(e[2..]) == "\\." + Escape(e[2..][1..]);
    assert e[2..][1..] == e[3..];
  }

  /** Where no escaped dots start inside `EscapeChar(c)`, replacing passes over it. */
  lemma ReplaceAfterEscapedChar(c: char, x: string)
    requires x == [] || x[0] != '.'
    requires c == '.' ==> !TwoEscapedDots(x)
    ensures ReplaceDots(EscapeChar(c) + x) == EscapeChar(c) + ReplaceDots(x)
  {
    if c in Special {
      var s := ['\\', c] + x;
      assert |x| >= 4 ==> x[0] == s[2] && x[1] == s[3] && x[2] == s[4] && x[3] == s[5];
      assert ThreeEscapedDots(s) ==> s[1] == '.' && TwoEscapedDots(x);
      assert ReplaceDots(s) == [s[0]] + ReplaceDots(s[1..]);
      var t := s[1..];
      assert t == [c] + x;
      assert ReplaceDots(t) == [t[0]] + ReplaceDots(t[1..]);
      assert t[1..] == x;
    } else {
      assert ([c] + x)[1..] == x;
    }
  }

  /** Escaping then replacing the escaped dots renders the tokens of the line. */
  lemma {:induction false} EscapeThenReplace(e: string)
    ensures ReplaceDots(Escape(e)) == Render(Tokens(e))
    decreases |e|
  {
    if e == [] {
    } else if StartsWithEllipsis(e) {
      EscapeThenReplace(e[3..]);
      var x := Escape(e[3..]);
      EscapeEllipsis(e);
      assert ThreeEscapedDots(EscapedDots + x);
      assert (EscapedDots + x)[6..] == x;
      assert Tokens(e) == [Wild] + Tokens(e[3..]);
    } else {
      EscapeThenReplace(e[1..]);
      EscapeStart(e[1..]);
      EscapeStartsWithTwoDots(e[1..]);
      ReplaceAfterEscapedChar(e[0], Escape(e[1..]));
      assert Escape(e) == EscapeChar(e[0]) + Escape(e[1..]);
      assert Tokens(e) == [Lit(e[0])] + Tokens(e[1..]);
    }
  }

  /** The source's pattern is `^`, the rendered tokens, and `$`; it reads back as those tokens. */
  lemma RegexDenotesTokens(e: string)
    ensures ExpectedRegex(e) == "^" + Render(Tokens(e)) + "$"
    ensures ParseRegex(Render(Tokens(e))) == Some(Tokens(e))
  {
    ReplaceDotsAnchors(Escape(e));
    EscapeThenReplace(e);
    ParseRender(Tokens(e));
  }

  // ---------------------------------------------------------------------
  // What the pattern matches

  /** `s` is matched in full by the tokens; `.*` does not cross a line feed. */
  predicate Matches(ts: seq<Token>, s: string)
    decreases |ts|, |s|
  {
    if ts == [] then s == []
    else match ts[0]
      case Lit(c) => |s| > 0 && s[0] == c && Matches(ts[1..], s[1..])
      case Wild => Matches(ts[1..], s) || (|s| > 0 && s[0] != '\n' && Matches(ts, s[1..]))
  }

  /** A wildcard stands for any run of characters without a line feed. */
  lemma WildMeaning(ts: seq<Token>, s: string)
    ensures Matches([Wild] + ts, s) <==>
              exists k :: 0 <= k <= |s| && '\n' !in s[..k] && Matches(ts, s[k..])
  {
    if Matches([Wild] + ts, s) {
      WildConsumes(ts, s);
    }
    if exists k :: 0 <= k <= |s| && '\n' !in s[..k] && Matches(ts, s[k..]) {
      var k :| 0 <= k <= |s| && '\n' !in s[..k] && Matches(ts, s[k..]);
      WildAccepts(ts, s, k);
    }
  }

  /** A wildcard that matches has consumed a run without a line feed. */
  lemma {:induction false} WildConsumes(ts: seq<Token>, s: string)
    requires Matches([Wild] + ts, s)
    ensures exists k :: 0 <= k <= |s| && '\n' !in s[..k] && Matches(ts, s[k..])
    decreases |s|
  {
    var w := [Wild] + ts;
    assert w[1..] == ts;
    if Matches(ts, s) {
      assert s[..0] == [] && s[0..] == s;
    } else {
      WildConsumes(ts, s[1..]);
      var k :| 0 <= k <= |s[1..]| && '\n' !in s[1..][..k] && Matches(ts, s[1..][k..]);
      assert s[..k + 1] == [s[0]] + s[1..][..k];
      assert s[k + 1..] == s[1..][k..];
    }
  }

  /** A wildcard can consume any run without a line feed. */
  lemma {:induction false} WildAccepts(ts: seq<Token>, s: string, k: nat)
    requires k <= |s| && '\n' !in s[..k] && Matches(ts, s[k..])
    ensures Matches([Wild] + ts, s)
    decreases k
  {
    var w := [Wild] + ts;
    assert w[1..] == ts;
    if k == 0 {
      assert s[0..] == s;
    } else {
      assert s[0] == s[..k][0];
      assert s[1..][..k - 1] == s[1..k];
      assert s[1..][k - 1..] == s[k..];
      WildAccepts(ts, s[1..], k - 1);
    }
  }

  predicate LineStart(s: string, a: nat) {
    a <= |s| && (a == 0 || s[a - 1] == '\n')
  }

  predicate LineEnd(s: string, b: nat) {
    b <= |s| && (b == |s| || s[b] == '\n')
  }

  /** `re.findall(regex, out, re.MULTILINE)` is non-empty. */
  predicate Found(ts: seq<Token>, out: string) {
    exists a: nat, b: nat | a <= b <= |out| ::
      LineStart(out, a) && LineEnd(out, b) && Matches(ts, out[a..b])
  }

  predicate NoNewlineLit(ts: seq<Token>) {
    forall i :: 0 <= i < |ts| ==> ts[i] != Lit('\n')
  }

  lemma {:induction false} TokensNoNewline(e: string)
    requires '\n' !in e
    ensures NoNewlineLit(Tokens(e))
    decreases |e|
  {
    if StartsWithEllipsis(e) {
      assert forall c :: c in e[3..] ==> c in e;
      TokensNoNewline(e[3..]);
    } else if e != [] {
      assert forall c :: c in e[1..] ==> c in e;
      TokensNoNewline(e[1..]);
    }
  }

  /** Without a literal line feed, a match stays within one line. */
  lemma {:induction false} MatchWithinLine(ts: seq<Token>, s: string)
    requires NoNewlineLit(ts)
    ensures Matches(ts, s) ==> '\n' !in s
    decreases |ts|, |s|
  {
    if ts != [] && Matches(ts, s) {
      assert NoNewlineLit(ts[1..]) by {
        forall i | 0 <= i < |ts[1..]| ensures ts[1..][i] != Lit('\n') { assert ts[1..][i] == ts[i + 1]; }
      }
      match ts[0]
      case Lit(c) =>
        MatchWithinLine(ts[1..], s[1..]);
        assert s == [s[0]] + s[1..];
      case Wild =>
        if Matches(ts[1..], s) {
          MatchWithinLine(ts[1..], s);
        } else {
          MatchWithinLine(ts, s[1..]);
          assert s == [s[0]] + s[1..];
        }
    }
  }

  /** The first line of a split, in terms of the split of the rest. */
  lemma SplitHead(out: string)
    requires out != []
    ensures Split(out, '\n')[0] == if out[0] == '\n' then "" else [out[0]] + Split(out[1..], '\n')[0]
  {
  }

  /** A later line of a split is a line of the split of the rest. */
  lemma SplitTail(out: string, i: nat)
    requires out != [] && 0 < i
    ensures |Split(out, '\n')| == |Split(out[1..], '\n')| + (if out[0] == '\n' then 1 else 0)
    ensures i < |Split(out, '\n')| ==>
              Split(out, '\n')[i] == Split(out[1..], '\n')[if out[0] == '\n' then i - 1 else i]
  {
  }

  /** A stretch of the rest, moved one character on, is a stretch of the whole. */
  lemma ShiftSpan(out: string, a: nat, b: nat)
    requires out != [] && a <= b <= |out| - 1
    requires LineStart(out[1..], a) && LineEnd(out[1..], b) && (a == 0 ==> out[0] == '\n')
    ensures out[a + 1..b + 1] == out[1..][a..b] && LineStart(out, a + 1) && LineEnd(out, b + 1)
  {
    if a > 0 {
      assert out[1..][a - 1] == out[a];
    }
    if b < |out| - 1 {
      assert out[1..][b] == out[b + 1];
    }
  }

  /** Every line of `out.split("\n")` sits between two line boundaries of `out`. */
  lemma {:induction false} PieceIsSpan(out: string, i: nat)
    requires i < |Split(out, '\n')|
    ensures exists a: nat, b: nat :: a <= b <= |out| && LineStart(out, a) && LineEnd(out, b)
              && out[a..b] == Split(out, '\n')[i] && (a == 0 <==> i == 0)
    decreases |out|
  {
    if out == [] {
      assert LineStart(out, 0) && LineEnd(out, 0) && out[0..0] == Split(out, '\n')[0];
    } else if out[0] == '\n' && i == 0 {
      SplitHead(out);
      assert LineStart(out, 0) && LineEnd(out, 0) && out[0..0] == Split(out, '\n')[0];
    } else {
      var tail := out[1..];
      var j := if out[0] == '\n' then i - 1 else i;
      if i > 0 {
        SplitTail(out, i);
      }
      PieceIsSpan(tail, j);
      var a: nat, b: nat :| a <= b <= |tail| && LineStart(tail, a) && LineEnd(tail, b)
                            && tail[a..b] == Split(tail, '\n')[j] && (a == 0 <==> j == 0);
      if i == 0 {
        SplitHead(out);
        assert out[0..b + 1] == [out[0]] + tail[0..b];
        assert LineEnd(out, b + 1) by {
          if b < |tail| {
            assert tail[b] == out[b + 1];
          }
        }
        assert LineStart(out, 0);
      } else {
        ShiftSpan(out, a, b);
      }
    }
  }

  lemma ConsSlice(out: string, b: nat)
    requires 0 < b <= |out|
    ensures out[0..b] == [out[0]] + out[1..][0..b - 1]
  {
  }

  /** A stretch between two line boundaries without a line feed is one line of the split. */
  lemma {:induction false} SpanIsPiece(out: string, a: nat, b: nat)
    requires a <= b <= |out| && LineStart(out, a) && LineEnd(out, b) && '\n' !in out[a..b]
    ensures exists i :: 0 <= i < |Split(out, '\n')| && Split(out, '\n')[i] == out[a..b]
              && (i == 0 <==> a == 0)
    decreases |out|
  {
    if out == [] {
      assert Split(out, '\n')[0] == out[a..b];
    } else if a == 0 && out[0] == '\n' {
      SplitHead(out);
      assert out[a..b] == [];
    } else {
      var tail := out[1..];
      if a == 0 {
        assert b > 0;
        ConsSlice(out, b);
        assert '\n' !in tail[0..b - 1] by {
          assert forall c :: c in tail[0..b - 1] ==> c in out[a..b];
        }
        assert LineEnd(tail, b - 1) by {
          if b - 1 < |tail| {
            assert tail[b - 1] == out[b];
          }
        }
        SpanIsPiece(tail, 0, b - 1);
        var j :| 0 <= j < |Split(tail, '\n')| && Split(tail, '\n')[j] == tail[0..b - 1] && (j == 0 <==> 0 == 0);
        SplitHead(out);
        assert Split(out, '\n')[0] == [out[0]] + Split(tail, '\n')[0];
        assert Split(tail, '\n')[0] == tail[0..b - 1];
        assert Split(out, '\n')[0] == out[a..b];
      } else {
        assert tail[a - 1..b - 1] == out[a..b];
        assert LineStart(tail, a - 1) by {
          if a - 1 > 0 {
            assert tail[a - 2] == out[a - 1];
          }
        }
        assert LineEnd(tail, b - 1) by {
          if b - 1 < |tail| {
            assert tail[b - 1] == out[b];
          }
        }
        SpanIsPiece(tail, a - 1, b - 1);
        var j :| 0 <= j < |Split(tail, '\n')| && Split(tail, '\n')[j] == tail[a - 1..b - 1]
                 && (j == 0 <==> a - 1 == 0);
        var i := if out[0] == '\n' then j + 1 else j;
        assert a - 1 == 0 ==> out[0] == '\n';
        if i > 0 {
          SplitTail(out, i);
        }
        assert Split(out, '\n')[i] == out[a..b];
      }
    }
  }

  /**
   * For an expected line without a line feed, the MULTILINE search succeeds
   * exactly when some line of the output, as `out.split("\n")` gives them, is
   * matched in full.
   */
  lemma FoundIffSomeLine(e: string, out: string)
    requires '\n' !in e
    ensures Found(Tokens(e), out) <==>
              exists i :: 0 <= i < |Split(out, '\n')| && Matches(Tokens(e), Split(out, '\n')[i])
  {
    var ts := Tokens(e);
    var lines := Split(out, '\n');
    TokensNoNewline(e);
    if Found(ts, out) {
      var a: nat, b: nat :| a <= b <= |out| && LineStart(out, a) && LineEnd(out, b) && Matches(ts, out[a..b]);
      MatchWithinLine(ts, out[a..b]);
      SpanIsPiece(out, a, b);
    }
    if exists i :: 0 <= i < |lines| && Matches(ts, lines[i]) {
      var i :| 0 <= i < |lines| && Matches(ts, lines[i]);
      PieceIsSpan(out, i);
    }
  }

  /** No `...` occurs in the text. */
  predicate NoEllipsis(e: string) {
    forall i :: 0 <= i < |e| ==> !StartsWithEllipsis(e[i..])
  }

  /** Without `...`, an expected line matches exactly the identical line. */
  lemma {:induction false} LiteralLine(e: string, s: string)
    requires NoEllipsis(e)
    ensures Matches(Tokens(e), s) <==> s == e
    decreases |e|
  {
    if e != [] {
      NoEllipsisTail(e);
      var ts := Tokens(e);
      assert ts[1..] == Tokens(e[1..]);
      if s != [] {
        LiteralLine(e[1..], s[1..]);
        assert s == [s[0]] + s[1..];
        assert e == [e[0]] + e[1..];
      }
    }
  }

  /** Text without `...` starts with a literal and its tail has no `...` either. */
  lemma NoEllipsisTail(e: string)
    requires e != [] && NoEllipsis(e)
    ensures Tokens(e) == [Lit(e[0])] + Tokens(e[1..]) && NoEllipsis(e[1..])
  {
    assert !StartsWithEllipsis(e) by { assert e[0..] == e; }
    forall i | 0 <= i < |e[1..]| ensures !StartsWithEllipsis(e[1..][i..]) {
      assert e[1..][i..] == e[i + 1..];
    }
  }

  /** The usual elision: `he...o` is found in the output `hello`. */
  lemma ElisionExample()
    ensures Found(Tokens("he...o"), "hello\n")
  {
    ElisionTokens("he...o");
    ElisionMatch("hello");
    assert "hello\n"[0..5] == "hello";
    assert LineStart("hello\n", 0) && LineEnd("hello\n", 5);
  }

  lemma ElisionTokens(e: string)
    requires e == "he...o"
    ensures Tokens(e) == [Lit('h'), Lit('e'), Wild, Lit('o')]
  {
    assert e[1..][1..] == "...o";
    assert "...o"[3..] == "o";
    assert Tokens("o") == [Lit('o')] by { assert "o"[1..] == ""; }
    assert Tokens("...o") == [Wild, Lit('o')];
    assert Tokens(e[1..]) == [Lit('e'), Wild, Lit('o')] by { assert !StartsWithEllipsis(e[1..]); }
    assert !StartsWithEllipsis(e);
  }

  lemma ElisionMatch(s: string)
    requires s == "hello"
    ensures Matches([Lit('h'), Lit('e'), Wild, Lit('o')], s)
  {
    var ts := [Lit('h'), Lit('e'), Wild, Lit('o')];
    WildMeaning([Lit('o')], "llo");
    assert "llo"[..2] == "ll" && "llo"[2..] == "o";
    assert Matches([Lit('o')], "o");
    assert Matches([Wild, Lit('o')], "llo");
    assert s[1..] == "ello" && "ello"[1..] == "llo";
    assert ts[1..] == [Lit('e'), Wild, Lit('o')] && ts[1..][1..] == [Wild, Lit('o')];
  }
}
