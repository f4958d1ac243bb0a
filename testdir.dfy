/**
 * The name of the directory a document is tested in (suremd.py:95-96): the
 * document's path with every `.`, `/` and space turned into `_`.
 */
module TestDir {

  /** The characters `test_file` replaces, the string "./ " of the source. */
  const Replaced: set<char> := {'.', '/', ' '}

  function Sanitized(c: char): char {
    if c in Replaced then '_' else c
  }

  function TestDirName(path: string): (r: string)
    ensures |r| == |path|
    ensures forall i :: 0 <= i < |path| ==> r[i] == Sanitized(path[i])
    ensures forall i :: 0 <= i < |r| ==> r[i] !in Replaced
  {
    if path == [] then [] else [Sanitized(path[0])] + TestDirName(path[1..])
  }

  /** A name that is already sanitised is left as it is. */
  lemma TestDirNameIdempotent(path: string)
    ensures TestDirName(TestDirName(path)) == TestDirName(path)
  {
  }

  /**
   * Two documents share a test directory exactly when their paths have the
   * same length and agree everywhere except at positions where each holds
   * one of `.`, `/`, space or `_`.
   */
  lemma SameTestDir(p: string, q: string)
    ensures TestDirName(p) == TestDirName(q) <==>
              |p| == |q| && forall i :: 0 <= i < |p| ==> Sanitized(p[i]) == Sanitized(q[i])
  {
    if TestDirName(p) == TestDirName(q) {
      forall i | 0 <= i < |p| ensures Sanitized(p[i]) == Sanitized(q[i]) {
        assert TestDirName(p)[i] == TestDirName(q)[i];
      }
    }
  }

  /** So "a b.md" and "a_b.md" are tested in the same directory. */
  lemma DistinctDocumentsShareDirectory()
    ensures TestDirName("a b.md") == TestDirName("a_b.md") == "a_b_md"
  {
    SameTestDir("a b.md", "a_b.md");
  }
}
