/**
 * The part of the operating system the engine touches: the current
 * directory, the directories and the files. Paths are strings; a relative
 * path is joined to the current directory textually.
 */
module FileSystem {
  import opened Wrappers

  /** The directories that exist and the contents of every file, by absolute path. */
  datatype Fs = Fs(dirs: set<string>, files: map<string, string>)

  /** The path without its trailing slashes, as `os.path.abspath` leaves it. */
  function TrimSlashes(p: string): (r: string)
    ensures |r| <= |p| && r == p[..|r|] && (r == [] || r[|r| - 1] != '/')
    ensures forall i :: |r| <= i < |p| ==> p[i] == '/'
  {
    if |p| > 0 && p[|p| - 1] == '/' then TrimSlashes(p[..|p| - 1]) else p
  }

  /** The absolute path `p` names when the current directory is `cwd`. */
  function Resolve(cwd: string, p: string): string {
    TrimSlashes(if |p| > 0 && p[0] == '/' then p else cwd + "/" + p)
  }

  /** `path[..i]` names a directory on the way to `path`. */
  predicate IsDirPrefix(path: string, i: int) {
    0 < i <= |path| && (i == |path| || path[i] == '/') && path[i - 1] != '/'
  }

  /** Every directory `os.makedirs(path)` needs: each leading component, and the path itself. */
  function Ancestors(path: string): set<string> {
    set i | 0 < i <= |path| && IsDirPrefix(path, i) :: path[..i]
  }

  /** A path that does not end in a slash is among the directories `makedirs` creates for it. */
  lemma PathInAncestors(path: string)
    requires path != [] && path[|path| - 1] != '/'
    ensures path in Ancestors(path)
  {
    assert IsDirPrefix(path, |path|) && path == path[..|path|];
  }

  /**
   * `os.makedirs(path, exist_ok=True)`: None when one of the directories it
   * needs is a file (the call raises), otherwise the tree with all of them.
   */
  function MakeDirs(fs: Fs, path: string): (r: Option<Fs>)
    ensures r.None? <==> exists a :: a in Ancestors(path) && a in fs.files
    ensures r.Some? ==> r.value.files == fs.files && fs.dirs <= r.value.dirs
                        && Ancestors(path) <= r.value.dirs
                        && forall d :: d in r.value.dirs ==> d in fs.dirs || d in Ancestors(path)
  {
    if exists a :: a in Ancestors(path) && a in fs.files then None
    else Some(Fs(fs.dirs + Ancestors(path), fs.files))
  }

  /** `create_directory(dir)` from the current directory: `makedirs("")` raises. */
  function CreateDirectory(fs: Fs, cwd: string, dir: string): (r: Option<Fs>)
    ensures r.None? <==> dir == "" || exists a :: a in Ancestors(Resolve(cwd, dir)) && a in fs.files
    ensures r.Some? ==> r.value.files == fs.files && fs.dirs <= r.value.dirs
                        && Ancestors(Resolve(cwd, dir)) <= r.value.dirs
                        && forall d :: d in r.value.dirs ==> d in fs.dirs || d in Ancestors(Resolve(cwd, dir))
  {
    if dir == "" then None else MakeDirs(fs, Resolve(cwd, dir))
  }

  /**
   * `makedirs` creates the parent first and then the directory itself: the
   * directories a path needs are the path and those its parent needs.
   */
  lemma AncestorsByParent(path: string)
    requires path != [] && path[|path| - 1] != '/'
    ensures Ancestors(path) == {path} + (if Parent(path) == [] then {} else Ancestors(Parent(path)))
  {
    var r := Parent(path);
    forall a | a in Ancestors(path) ensures a == path || (r != [] && a in Ancestors(r)) {
      var i :| 0 < i <= |path| && IsDirPrefix(path, i) && a == path[..i];
      if i < |path| {
        if i > |r| {
          AboveParent(path, i);
        } else {
          BelowParent(path, i);
        }
      }
    }
    forall a | r != [] && a in Ancestors(r) ensures a in Ancestors(path) {
      var i :| 0 < i <= |r| && IsDirPrefix(r, i) && a == r[..i];
      BelowParent(path, i);
    }
    assert IsDirPrefix(path, |path|) && path == path[..|path|];
  }

  /** Up to the parent's end, a path and its parent have the same directory prefixes. */
  lemma BelowParent(path: string, i: nat)
    requires 0 < i <= |Parent(path)|
    ensures (IsDirPrefix(path, i) <==> IsDirPrefix(Parent(path), i)) && path[..i] == Parent(path)[..i]
  {
    var r := Parent(path);
    assert path[i - 1] == r[i - 1];
    if i < |r| {
      assert path[i] == r[i];
    }
  }

  /** Between the parent's end and the path's end there is no slash, so no directory ends there. */
  lemma AboveParent(path: string, i: nat)
    requires |Parent(path)| < i < |path|
    ensures !IsDirPrefix(path, i)
  {
  }

  /** Creating the same directories twice is the same as creating them once. */
  lemma MakeDirsIdempotent(fs: Fs, path: string)
    requires MakeDirs(fs, path).Some?
    ensures MakeDirs(MakeDirs(fs, path).value, path) == MakeDirs(fs, path)
  {
  }

  /** The directory a path lies in; empty for a path directly under the root. */
  function Parent(path: string): (r: string)
    ensures |r| <= |path| && r == path[..|r|]
    ensures r == [] || (|r| < |path| && path[|r|] == '/')
    ensures forall i :: |r| < i < |path| ==> path[i] != '/'
  {
    if path == [] then []
    else if path[|path| - 1] == '/' then path[..|path| - 1]
    else Parent(path[..|path| - 1])
  }

  /**
   * `open(path, "w").write(contents)`: None when the path is a directory or
   * its parent is not (the call raises), otherwise the tree with the file
   * holding exactly `contents`.
   */
  function WriteFile(fs: Fs, path: string, contents: string): (r: Option<Fs>)
    ensures r.None? <==> path in fs.dirs || (Parent(path) != [] && Parent(path) !in fs.dirs)
    ensures r.Some? ==> r.value.dirs == fs.dirs && path in r.value.files && r.value.files[path] == contents
    ensures r.Some? ==> forall q :: q != path ==>
              (q in r.value.files <==> q in fs.files) && (q in fs.files ==> r.value.files[q] == fs.files[q])
  {
    if path in fs.dirs || (Parent(path) != [] && Parent(path) !in fs.dirs) then None
    else Some(Fs(fs.dirs, fs.files[path := contents]))
  }

  /** Writing a file twice leaves the second contents: the mode "w" truncates. */
  lemma LastWriteWins(fs: Fs, path: string, a: string, b: string)
    requires WriteFile(fs, path, a).Some?
    ensures WriteFile(WriteFile(fs, path, a).value, path, b) == WriteFile(fs, path, b)
  {
    assert fs.files[path := a][path := b] == fs.files[path := b];
  }

  /** Writing two different files commutes. */
  lemma WritesCommute(fs: Fs, p: string, q: string, a: string, b: string)
    requires p != q && WriteFile(fs, p, a).Some? && WriteFile(fs, q, b).Some?
    ensures WriteFile(WriteFile(fs, p, a).value, q, b) == WriteFile(WriteFile(fs, q, b).value, p, a)
  {
    assert fs.files[p := a][q := b] == fs.files[q := b][p := a];
  }

  /** The process-wide state: the current directory and the tree. */
  class Os {
    var cwd: string
    var fs: Fs

    constructor (cwd: string, fs: Fs)
      ensures this.cwd == cwd && this.fs == fs
    {
      this.cwd := cwd;
      this.fs := fs;
    }
  }

  /**
   * The stack of saved working directories (suremd.py:77-91): pushing saves
   * the current directory, creates the target and enters it; popping
   * returns to the directory saved last.
   */
  class DirStack {
    var saved: seq<string>

    constructor ()
      ensures saved == []
    {
      saved := [];
    }

    /**
     * `push_directory(dir)`. The current directory is saved before the
     * directory is created, so when `makedirs` raises (`ok` false) the stack
     * has still grown and the current directory is unchanged.
     */
    method PushDirectory(os: Os, dir: string) returns (ok: bool)
      modifies this, os
      ensures saved == old(saved) + [old(os.cwd)]
      ensures var created := CreateDirectory(old(os.fs), old(os.cwd), dir);
              ok == created.Some?
              && (ok ==> os.fs == created.value && os.cwd == Resolve(old(os.cwd), dir))
              && (!ok ==> os.fs == old(os.fs) && os.cwd == old(os.cwd))
    {
      saved := saved + [os.cwd];
      var created := CreateDirectory(os.fs, os.cwd, dir);
      if created.None? {
        return false;
      }
      os.fs := created.value;
      os.cwd := Resolve(os.cwd, dir);
      return true;
    }

    /**
     * `pop_directory()`: back to the directory saved last. Popping an empty
     * stack raises (`ok` false) and changes nothing.
     */
    method PopDirectory(os: Os) returns (ok: bool)
      modifies this, os
      ensures ok <==> old(saved) != []
      ensures ok ==> saved == old(saved)[..|old(saved)| - 1] && os.cwd == old(saved)[|old(saved)| - 1]
      ensures !ok ==> saved == old(saved) && os.cwd == old(os.cwd)
      ensures os.fs == old(os.fs)
    {
      if saved == [] {
        return false;
      }
      os.cwd := saved[|saved| - 1];
      saved := saved[..|saved| - 1];
      return true;
    }
  }

  /**
   * A push followed by a pop restores the stack and the current directory
   * and keeps the directories the push created; a push that failed leaves
   * the tree as it was.
   */
  method PushThenPop(stack: DirStack, os: Os, dir: string)
    requires stack != os as object
    modifies stack, os
    ensures stack.saved == old(stack.saved) && os.cwd == old(os.cwd)
    ensures CreateDirectory(old(os.fs), old(os.cwd), dir).Some? ==> os.fs == CreateDirectory(old(os.fs), old(os.cwd), dir).value
    ensures CreateDirectory(old(os.fs), old(os.cwd), dir).None? ==> os.fs == old(os.fs)
  {
    var pushed := stack.PushDirectory(os, dir);
    var popped := stack.PopDirectory(os);
    assert popped;
  }
}
