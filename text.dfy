/** The optional value returned by every parser of the model. */
module Wrappers {
  datatype Option<+T> = None | Some(value: T)
}

/**
 * The string primitives of Python that the engine relies on: whitespace and
 * word characters as its regular expressions see them, `str.strip`,
 * `str.rstrip("\n")`, `str.startswith` and `str.split(sep)`.
 */
module Text {

  /** Python's `str.isspace()`, which is also the class `\s` of a str pattern. */
  predicate IsSpace(c: char) {
    c == ' ' || ('\t' <= c <= '\r') || ('\U{1C}' <= c <= '\U{1F}')
    || c == '\U{85}' || c == '\U{A0}' || c == '\U{1680}'
    || ('\U{2000}' <= c <= '\U{200A}') || c == '\U{2028}' || c == '\U{2029}'
    || c == '\U{202F}' || c == '\U{205F}' || c == '\U{3000}'
  }

  /** The class `\w`, restricted to ASCII letters, digits and underscore. */
  predicate IsWordChar(c: char) {
    ('a' <= c <= 'z') || ('A' <= c <= 'Z') || ('0' <= c <= '9') || c == '_'
  }

  predicate AllSpace(s: string) {
    forall i :: 0 <= i < |s| ==> IsSpace(s[i])
  }

  predicate StartsWith(s: string, prefix: string) {
    |prefix| <= |s| && s[..|prefix|] == prefix
  }

  /** The length of the run of whitespace that opens `s`. */
  function LeadingSpaces(s: string): (n: nat)
    ensures n <= |s| && AllSpace(s[..n]) && (n == |s| || !IsSpace(s[n]))
  {
    if |s| > 0 && IsSpace(s[0]) then
      var n := 1 + LeadingSpaces(s[1..]);
      assert s[..n] == [s[0]] + s[1..][..n - 1];
      n
    else 0
  }

  predicate NoSpace(s: string) {
    forall i :: 0 <= i < |s| ==> !IsSpace(s[i])
  }

  /** The length of the run of non-whitespace that opens `s`. */
  function LeadingNonSpaces(s: string): (n: nat)
    ensures n <= |s| && NoSpace(s[..n]) && (n == |s| || IsSpace(s[n]))
  {
    if |s| > 0 && !IsSpace(s[0]) then
      var n := 1 + LeadingNonSpaces(s[1..]);
      assert s[..n] == [s[0]] + s[1..][..n - 1];
      n
    else 0
  }

  lemma TakeIndex<T>(s: seq<T>, n: nat, j: nat)
    ensures j < n <= |s| ==> s[..n][j] == s[j]
  {
  }

  /** LeadingSpaces is the only length with its defining property. */
  lemma LeadingSpacesIs(s: string, n: nat)
    requires n <= |s| && AllSpace(s[..n]) && (n == |s| || !IsSpace(s[n]))
    ensures LeadingSpaces(s) == n
  {
    var m := LeadingSpaces(s);
    TakeIndex(s, n, m);
    TakeIndex(s, m, n);
  }

  /** LeadingNonSpaces is the only length with its defining property. */
  lemma LeadingNonSpacesIs(s: string, n: nat)
    requires n <= |s| && NoSpace(s[..n]) && (n == |s| || IsSpace(s[n]))
    ensures LeadingNonSpaces(s) == n
  {
    var m := LeadingNonSpaces(s);
    TakeIndex(s, n, m);
    TakeIndex(s, m, n);
  }

  /** Drops the leading whitespace. */
  function LStrip(s: string): (r: string)
    ensures |r| <= |s| && r == s[|s| - |r|..]
    ensures AllSpace(s[..|s| - |r|])
    ensures r == [] || !IsSpace(r[0])
  {
    if |s| > 0 && IsSpace(s[0]) then
      var r := LStrip(s[1..]);
      SpaceThenTail(s, |r|);
      r
    else s
  }

  /** A suffix of the tail of `s` that follows whitespace also follows whitespace in `s`. */
  lemma SpaceThenTail(s: string, k: nat)
    requires |s| > 0 && IsSpace(s[0]) && k <= |s| - 1 && AllSpace(s[1..][..|s| - 1 - k])
    ensures s[1..][|s| - 1 - k..] == s[|s| - k..] && AllSpace(s[..|s| - k])
  {
    var p, q := s[..|s| - k], s[1..][..|s| - 1 - k];
    forall i | 0 <= i < |p| ensures IsSpace(p[i]) {
      if i > 0 {
        assert p[i] == q[i - 1];
      }
    }
  }

  /** Drops the trailing whitespace. */
  function RStrip(s: string): (r: string)
    ensures |r| <= |s| && r == s[..|r|]
    ensures AllSpace(s[|r|..])
    ensures r == [] || !IsSpace(r[|r| - 1])
  {
    if |s| > 0 && IsSpace(s[|s| - 1]) then
      var r := RStrip(s[..|s| - 1]);
      SpaceBeforeEnd(s, |r|);
      r
    else s
  }

  /** A prefix of `s` minus its last character that whitespace follows is followed by whitespace in `s`. */
  lemma SpaceBeforeEnd(s: string, k: nat)
    requires |s| > 0 && IsSpace(s[|s| - 1]) && k <= |s| - 1 && AllSpace(s[..|s| - 1][k..])
    ensures s[..|s| - 1][..k] == s[..k] && AllSpace(s[k..])
  {
    forall i | 0 <= i < |s| - k ensures IsSpace(s[k..][i]) {
      if k + i < |s| - 1 {
        assert s[k..][i] == s[..|s| - 1][k..][i];
      }
    }
  }

  /** Python's `str.strip()`: the line without surrounding whitespace. */
  function Strip(s: string): (r: string)
    ensures exists i :: 0 <= i <= i + |r| <= |s| && r == s[i..i + |r|]
              && AllSpace(s[..i]) && AllSpace(s[i + |r|..])
    ensures r == [] || (!IsSpace(r[0]) && !IsSpace(r[|r| - 1]))
  {
    var l := LStrip(s);
    var r := RStrip(l);
    SuffixPrefix(s, l, r);
    var i := |s| - |l|;
    assert r == s[i..i + |r|] && AllSpace(s[..i]) && AllSpace(s[i + |r|..]);
    r
  }

  /** A prefix `r` of a suffix `l` of `s` is a slice of `s`, followed by the rest of `l`. */
  lemma SuffixPrefix(s: string, l: string, r: string)
    requires |l| <= |s| && l == s[|s| - |l|..] && |r| <= |l| && r == l[..|r|]
    ensures s[|s| - |l|..|s| - |l| + |r|] == r && s[|s| - |l| + |r|..] == l[|r|..]
  {
  }

  /** Python's `str.rstrip("\n")`: every trailing line feed removed. */
  function RStripNewlines(s: string): (r: string)
    ensures |r| <= |s| && r == s[..|r|]
    ensures forall i :: |r| <= i < |s| ==> s[i] == '\n'
    ensures r == [] || r[|r| - 1] != '\n'
  {
    if |s| > 0 && s[|s| - 1] == '\n' then RStripNewlines(s[..|s| - 1]) else s
  }

  /** Python's `s.split(sep)` for a one-character separator. */
  function Split(s: string, sep: char): (r: seq<string>)
    ensures |r| >= 1
  {
    if s == [] then [""]
    else if s[0] == sep then [""] + Split(s[1..], sep)
    else
      var rest := Split(s[1..], sep);
      [[s[0]] + rest[0]] + rest[1..]
  }

  /** No piece of a split holds the separator. */
  lemma {:induction false} SplitPiecesFree(s: string, sep: char)
    ensures forall i :: 0 <= i < |Split(s, sep)| ==> sep !in Split(s, sep)[i]
    decreases |s|
  {
    if s != [] {
      SplitPiecesFree(s[1..], sep);
      var rest := Split(s[1..], sep);
      if s[0] != sep {
        assert sep !in [s[0]] + rest[0];
        assert forall i :: 1 <= i < |Split(s, sep)| ==> Split(s, sep)[i] == rest[i];
      } else {
        assert forall i :: 1 <= i < |Split(s, sep)| ==> Split(s, sep)[i] == rest[i - 1];
      }
    }
  }

  /** Python's `sep.join(parts)`. */
  function Join(parts: seq<string>, sep: char): string {
    if parts == [] then ""
    else if |parts| == 1 then parts[0]
    else parts[0] + [sep] + Join(parts[1..], sep)
  }

  /** Joining the pieces of a split gives back the string. */
  lemma {:induction false} JoinSplit(s: string, sep: char)
    ensures Join(Split(s, sep), sep) == s
  {
    if s == [] {
    } else if s[0] == sep {
      JoinSplit(s[1..], sep);
      assert s == [sep] + s[1..];
    } else {
      var rest := Split(s[1..], sep);
      JoinSplit(s[1..], sep);
      if |rest| == 1 {
        assert s == [s[0]] + rest[0];
      } else {
        assert Join(rest, sep) == rest[0] + [sep] + Join(rest[1..], sep);
        assert s == [s[0]] + s[1..];
      }
    }
  }

  /** Splitting a join of separator-free pieces gives back the pieces. */
  lemma {:induction false} SplitJoin(parts: seq<string>, sep: char)
    requires |parts| >= 1
    requires forall i :: 0 <= i < |parts| ==> sep !in parts[i]
    ensures Split(Join(parts, sep), sep) == parts
    decreases |parts|, |parts[0]|
  {
    var p := parts[0];
    if p == [] {
      if |parts| > 1 {
        SplitJoin(parts[1..], sep);
        assert Join(parts, sep) == [sep] + Join(parts[1..], sep);
        SplitAfterSep(Join(parts[1..], sep), sep);
        assert parts == [""] + parts[1..];
      }
    } else {
      var tail := [p[1..]] + parts[1..];
      assert p[0] != sep by { assert p[0] in parts[0]; }
      assert sep !in p[1..] by { assert forall c :: c in p[1..] ==> c in p; }
      assert forall i :: 1 <= i < |tail| ==> tail[i] == parts[i];
      SplitJoin(tail, sep);
      JoinHead(parts, sep);
      SplitAfterChar(p[0], Join(tail, sep), sep);
      assert p == [p[0]] + p[1..];
      assert parts == [[p[0]] + p[1..]] + parts[1..];
    }
  }

  /** A join starting with a non-empty piece starts with that piece's first character. */
  lemma JoinHead(parts: seq<string>, sep: char)
    requires |parts| >= 1 && parts[0] != []
    ensures Join(parts, sep) == [parts[0][0]] + Join([parts[0][1..]] + parts[1..], sep)
  {
    var tail := [parts[0][1..]] + parts[1..];
    assert tail[1..] == parts[1..];
    assert parts[0] == [parts[0][0]] + parts[0][1..];
  }

  /** A separator at the head starts an empty piece. */
  lemma SplitAfterSep(t: string, sep: char)
    ensures Split([sep] + t, sep) == [""] + Split(t, sep)
  {
    assert ([sep] + t)[1..] == t;
  }

  /** Any other character at the head joins the first piece. */
  lemma SplitAfterChar(c: char, t: string, sep: char)
    requires c != sep
    ensures Split([c] + t, sep) == [[c] + Split(t, sep)[0]] + Split(t, sep)[1..]
  {
    assert ([c] + t)[1..] == t;
  }

  /** A split has a single piece exactly when the separator does not occur. */
  lemma {:induction false} SplitOne(s: string, sep: char)
    ensures |Split(s, sep)| == 1 <==> sep !in s
    decreases |s|
  {
    if s != [] {
      SplitOne(s[1..], sep);
      assert s == [s[0]] + s[1..];
      assert sep in s <==> s[0] == sep || sep in s[1..];
    }
  }

  /** The last piece of a split is the text after the last separator. */
  lemma SplitLast(s: string, sep: char)
    ensures var pieces := Split(s, sep);
            var last := pieces[|pieces| - 1];
            |last| <= |s| && last == s[|s| - |last|..]
            && (sep in s ==> |last| < |s| && s[|s| - |last| - 1] == sep)
  {
    JoinSplit(s, sep);
    SplitOne(s, sep);
    LastOfJoin(Split(s, sep), sep, s);
  }

  /** Pieces joined into `s`: the last one ends `s`, right after a separator when there are several. */
  lemma LastOfJoin(pieces: seq<string>, sep: char, s: string)
    requires |pieces| >= 1 && Join(pieces, sep) == s && (|pieces| == 1 <==> sep !in s)
    ensures var last := pieces[|pieces| - 1];
            |last| <= |s| && last == s[|s| - |last|..]
            && (sep in s ==> |last| < |s| && s[|s| - |last| - 1] == sep)
  {
    JoinLast(pieces, sep);
  }

  /** A join ends with its last piece, right after a separator when there are several. */
  lemma {:induction false} JoinLast(parts: seq<string>, sep: char)
    requires |parts| >= 1
    ensures var j := Join(parts, sep);
            var last := parts[|parts| - 1];
            |last| <= |j| && last == j[|j| - |last|..]
            && (|parts| > 1 ==> |last| < |j| && j[|j| - |last| - 1] == sep)
    decreases |parts|
  {
    if |parts| > 1 {
      JoinLast(parts[1..], sep);
      var rest := Join(parts[1..], sep);
      var last := parts[|parts| - 1];
      assert parts[1..][|parts[1..]| - 1] == last;
      SuffixOfAppend(parts[0] + [sep], rest, |last|);
    }
  }

  /** The end of `a + b` within `b` is the end of `b`. */
  lemma SuffixOfAppend(a: string, b: string, k: nat)
    requires k <= |b|
    ensures (a + b)[|a + b| - k..] == b[|b| - k..]
    ensures k < |b| ==> (a + b)[|a + b| - k - 1] == b[|b| - k - 1]
    ensures a != [] && k == |b| ==> (a + b)[|a + b| - k - 1] == a[|a| - 1]
  {
  }

  /** A separator-free head before the first separator becomes the first piece. */
  lemma {:induction false} SplitCons(a: string, sep: char, b: string)
    requires sep !in a
    ensures Split(a + [sep] + b, sep) == [a] + Split(b, sep)
  {
    if a != [] {
      assert sep !in a[1..] by {
        forall i | 0 <= i < |a[1..]| ensures a[1..][i] != sep { assert a[1..][i] == a[i + 1]; }
      }
      SplitCons(a[1..], sep, b);
      assert (a + [sep] + b)[1..] == a[1..] + [sep] + b;
      assert a == [a[0]] + a[1..];
    } else {
      assert (a + [sep] + b)[1..] == b;
    }
  }

  /** A string without the separator is split into itself alone. */
  lemma {:induction false} SplitNoSep(s: string, sep: char)
    requires sep !in s
    ensures Split(s, sep) == [s]
  {
    if s != [] {
      assert sep !in s[1..] by {
        forall i | 0 <= i < |s[1..]| ensures s[1..][i] != sep { assert s[1..][i] == s[i + 1]; }
      }
      SplitNoSep(s[1..], sep);
      assert s == [s[0]] + s[1..];
    }
  }

  /** Python's `"".join(parts)`. */
  function Concat(parts: seq<string>): string {
    if parts == [] then "" else parts[0] + Concat(parts[1..])
  }

  /** A line as `readlines` yields it: a line feed can only be its last character. */
  predicate IsLine(l: string) {
    l != [] && forall j :: 0 <= j < |l| - 1 ==> l[j] != '\n'
  }

  /**
   * `fp.readlines()` on text `t`: the text cut after every line feed
   * (ReadLinesJoin, ReadLinesAreLines).
   */
  function ReadLines(t: string): seq<string>
    decreases |t|
  {
    if t == [] then []
    else
      var rest := ReadLines(t[1..]);
      if t[0] == '\n' || rest == [] then [[t[0]]] + rest
      else [[t[0]] + rest[0]] + rest[1..]
  }

  /** The lines together are the text again. */
  lemma {:induction false} ReadLinesJoin(t: string)
    ensures Concat(ReadLines(t)) == t
    decreases |t|
  {
    if t != [] {
      var rest := ReadLines(t[1..]);
      ReadLinesJoin(t[1..]);
      assert t == [t[0]] + t[1..];
      if t[0] == '\n' || rest == [] {
        assert ([[t[0]]] + rest)[1..] == rest;
      } else {
        assert Concat(rest) == rest[0] + Concat(rest[1..]);
        assert ([[t[0]] + rest[0]] + rest[1..])[1..] == rest[1..];
      }
    }
  }

  /** Every line but the last ends in a line feed, and no line holds another. */
  lemma {:induction false} ReadLinesAreLines(t: string)
    ensures forall i :: 0 <= i < |ReadLines(t)| ==> IsLine(ReadLines(t)[i])
    ensures forall i :: 0 <= i < |ReadLines(t)| - 1 ==> LastIsNewline(ReadLines(t)[i])
    decreases |t|
  {
    if t != [] {
      var rest := ReadLines(t[1..]);
      ReadLinesAreLines(t[1..]);
      if t[0] == '\n' || rest == [] {
        var r := [[t[0]]] + rest;
        assert forall i :: 1 <= i < |r| ==> r[i] == rest[i - 1];
      } else {
        var first := [t[0]] + rest[0];
        var r := [first] + rest[1..];
        assert forall j :: 1 <= j < |first| ==> first[j] == rest[0][j - 1];
        assert forall i :: 1 <= i < |r| ==> r[i] == rest[i];
      }
    }
  }

  /** The line ends in a line feed. */
  predicate LastIsNewline(l: string) {
    l != [] && l[|l| - 1] == '\n'
  }
}
