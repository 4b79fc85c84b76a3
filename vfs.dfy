/** An abstract POSIX file system holding the entries that `os.mkdir`,
    `os.symlink`, `os.rename`, `os.path.isdir` and `glob.glob` act on,
    keyed by absolute path. */
module Vfs {
  import opened Wrappers
  import opened Strings
  import opened Paths

  /** What an entry is; a symbolic link records its target text, which is
      never resolved. */
  datatype Node = Directory | RegularFile | Symlink(target: string)

  type Tree = map<string, Node>

  predicate IsDirIn(t: Tree, p: string) {
    p in t && t[p].Directory?
  }

  /** The root is a directory, and every other entry is absolute and sits
      in a directory entry. */
  ghost predicate WellFormed(t: Tree) {
    IsDirIn(t, "/") && forall p :: p in t && p != "/" ==> IsAbsolute(p) && IsDirIn(t, Dirname(p))
  }

  /** The check made on the folder that is to hold the entry p. */
  function ParentOutcome(t: Tree, p: string): Outcome {
    var parent := Dirname(p);
    if parent !in t then Fail(FileNotFoundError(p))
    else if !t[parent].Directory? then Fail(NotADirectoryError(p))
    else Pass
  }

  /** Creating the entry p (a directory for `os.mkdir`, a link for
      `os.symlink`): it must not exist yet, whatever its kind, and its
      folder must be a directory. */
  function CreateAt(t: Tree, p: string, n: Node): (Outcome, Tree) {
    if p in t then (Fail(FileExistsError(p)), t)
    else match ParentOutcome(t, p)
      case Fail(e) => (Fail(e), t)
      case Pass => (Pass, t[p := n])
  }

  /** `os.mkdir(p)` for an absolute p. */
  function MkdirAt(t: Tree, p: string): (Outcome, Tree) {
    CreateAt(t, p, Directory)
  }

  /** `os.symlink(target, p)` for an absolute p; the target is not looked
      at, so a dangling link is created without complaint. */
  function SymlinkAt(t: Tree, target: string, p: string): (Outcome, Tree) {
    CreateAt(t, p, Symlink(target))
  }

  /** `os.rename(src, dst)` for absolute paths and a source that is not a
      directory: the entry moves, replacing whatever non-directory dst
      held; renaming an entry onto itself changes nothing. */
  function RenameAt(t: Tree, src: string, dst: string): (Outcome, Tree) {
    if src !in t then (Fail(FileNotFoundError(src)), t)
    else if t[src].Directory? then (Fail(IsADirectoryError(src)), t)
    else if dst in t && t[dst].Directory? then (Fail(IsADirectoryError(dst)), t)
    else match ParentOutcome(t, dst)
      case Fail(e) => (Fail(e), t)
      case Pass => if src == dst then (Pass, t) else (Pass, (t - {src})[dst := t[src]])
  }

  // ---------------------------------------------------------------------
  // The calls as a process makes them, with paths relative to its working
  // directory. The kernel resolves a path as abspath does (a trailing '/'
  // names the same entry); the empty path names no entry at all.

  /** `os.path.isdir(path)`: False for "", which names nothing. */
  predicate OsIsDir(t: Tree, cwd: string, path: string) {
    path != "" && IsDirIn(t, AbsPath(cwd, path))
  }

  /** `os.mkdir(path)`: "" raises FileNotFoundError. */
  function OsMkdir(t: Tree, cwd: string, path: string): (Outcome, Tree) {
    if path == "" then (Fail(FileNotFoundError(path)), t) else MkdirAt(t, AbsPath(cwd, path))
  }

  /** `os.symlink(target, link)`: an empty link path raises
      FileNotFoundError. */
  function OsSymlink(t: Tree, cwd: string, target: string, link: string): (Outcome, Tree) {
    if link == "" then (Fail(FileNotFoundError(link)), t) else SymlinkAt(t, target, AbsPath(cwd, link))
  }

  /** `os.rename(src, dst)`: an empty path on either side raises
      FileNotFoundError. */
  function OsRename(t: Tree, cwd: string, src: string, dst: string): (Outcome, Tree) {
    if src == "" then (Fail(FileNotFoundError(src)), t)
    else if dst == "" then (Fail(FileNotFoundError(dst)), t)
    else RenameAt(t, AbsPath(cwd, src), AbsPath(cwd, dst))
  }

  /** A trailing '/' names the same entry, and "" names none: `mkdir("out/")`
      creates out, `mkdir("")` raises FileNotFoundError and changes nothing,
      and `isdir("")` is False even though abspath("") is the working
      directory. */
  lemma OsPathResolution(t: Tree, cwd: string, d: string)
    requires IsAbsolute(cwd) && Normal(cwd) && d != "" && d != "/" && Normal(d)
    ensures OsMkdir(t, cwd, d + "/") == OsMkdir(t, cwd, d)
    ensures OsIsDir(t, cwd, d + "/") == OsIsDir(t, cwd, d)
    ensures OsMkdir(t, cwd, "") == (Fail(FileNotFoundError("")), t)
    ensures !OsIsDir(t, cwd, "") && AbsPath(cwd, "") == cwd
  {
    AbsPathDropsTrailingSlash(cwd, d);
  }

  /** Creation succeeds exactly when p is absent and its folder is a
      directory; it then adds p and nothing else, and otherwise changes
      nothing. */
  lemma CreateSpec(t: Tree, p: string, n: Node)
    ensures CreateAt(t, p, n).0.Pass? <==> p !in t && IsDirIn(t, Dirname(p))
    ensures CreateAt(t, p, n).1 == if CreateAt(t, p, n).0.Pass? then t[p := n] else t
    ensures p in t ==> CreateAt(t, p, n).0 == Fail(FileExistsError(p))
  {
  }

  lemma CreateKeepsWellFormed(t: Tree, p: string, n: Node)
    requires WellFormed(t) && IsAbsolute(p)
    ensures WellFormed(CreateAt(t, p, n).1)
  {
  }

  /** A rename succeeds exactly when the source is a present non-directory,
      the destination is not a directory and its folder is one; the entry
      then appears under dst and src is gone (unless they are equal), and
      every other entry is kept. */
  lemma RenameSpec(t: Tree, src: string, dst: string)
    ensures RenameAt(t, src, dst).0.Pass? <==>
      src in t && !t[src].Directory? && !IsDirIn(t, dst) && IsDirIn(t, Dirname(dst))
    ensures var (o, t') := RenameAt(t, src, dst);
      o.Pass? ==>
        && dst in t' && t'[dst] == t[src] && (src != dst ==> src !in t')
        && forall q :: q in t && q != src && q != dst ==> q in t' && t'[q] == t[q]
    ensures RenameAt(t, src, dst).0.Fail? ==> RenameAt(t, src, dst).1 == t
  {
  }

  lemma RenameKeepsWellFormed(t: Tree, src: string, dst: string)
    requires WellFormed(t) && IsAbsolute(dst)
    ensures WellFormed(RenameAt(t, src, dst).1)
  {
    var (o, t') := RenameAt(t, src, dst);
    if o.Pass? && src != dst {
      forall p | p in t' && p != "/"
        ensures IsAbsolute(p) && IsDirIn(t', Dirname(p))
      {
        if p != dst {
          assert p in t && IsDirIn(t, Dirname(p));
          assert Dirname(p) != src;
          assert Dirname(p) != dst;
        }
      }
    }
  }

  // ---------------------------------------------------------------------
  // glob.glob(os.path.join(d, '*.fastq.gz'))

  const FastqPattern: string := "*.fastq.gz"

  /** The names `*.fastq.gz` matches: ending in ".fastq.gz" and, since the
      pattern does not start with '.', not hidden. */
  predicate FastqName(name: string) {
    |name| >= 9 && name[|name| - 9..] == ".fastq.gz" && !StartsWith(name, ".")
  }

  /** The folder part glob puts in front of each name it finds: the
      dirname of the joined pattern. */
  function GlobPrefix(d: string): string {
    Dirname(Join(d, FastqPattern))
  }

  /** The paths glob reports: one per matching entry directly inside the
      folder `abspath(d)`, whatever the entry's kind. */
  ghost function GlobMatches(t: Tree, cwd: string, d: string): set<string> {
    set p | p in t && p != "/" && Dirname(p) == AbsPath(cwd, d) && FastqName(Basename(p)) :: Join(GlobPrefix(d), Basename(p))
  }

  /** files is an order in which glob may report the matches. */
  ghost predicate IsListing(files: seq<string>, t: Tree, cwd: string, d: string) {
    NoDuplicates(files) && forall f :: f in files <==> f in GlobMatches(t, cwd, d)
  }

  /** For a folder path without a trailing '/', glob reports paths that
      are the folder joined with a matching name, and abspath of each is
      the entry it was found as. */
  lemma GlobMatchIsEntry(t: Tree, cwd: string, d: string, f: string)
    requires IsAbsolute(cwd) && Normal(cwd) && Normal(d)
    requires f in GlobMatches(t, cwd, d)
    ensures FastqName(Basename(f))
    ensures Dirname(AbsPath(cwd, f)) == AbsPath(cwd, d)
    ensures Basename(AbsPath(cwd, f)) == Basename(f)
    ensures f == Join(d, Basename(f))
  {
    var p :| p in t && p != "/" && Dirname(p) == AbsPath(cwd, d) && FastqName(Basename(p))
             && f == Join(GlobPrefix(d), Basename(p));
    var n := Basename(p);
    assert '/' !in FastqPattern;
    JoinThenSplit(d, FastqPattern);
    JoinThenSplit(d, n);
    AbsPathOfJoin(cwd, d, n);
    AbsPathNormal(cwd, d);
    JoinThenSplit(AbsPath(cwd, d), n);
  }

  /** A trailing '/' on the folder changes nothing: globbing in "in/"
      reports the same paths, "in/" followed by each name, as globbing in
      "in". */
  lemma GlobIgnoresTrailingSlash(t: Tree, cwd: string, d: string)
    requires IsAbsolute(cwd) && Normal(cwd) && d != "" && d != "/" && Normal(d)
    ensures GlobMatches(t, cwd, d + "/") == GlobMatches(t, cwd, d)
    ensures GlobPrefix(d + "/") == GlobPrefix(d)
  {
    AbsPathDropsTrailingSlash(cwd, d);
    assert !IsAbsolute(FastqPattern);
    assert Join(d + "/", FastqPattern) == Join(d, FastqPattern);
  }

  // ---------------------------------------------------------------------

  /** The file system as the process sees it: the tree of entries and the
      working directory relative paths are resolved against. */
  class FileSystem {
    const cwd: string
    var tree: Tree

    ghost predicate Valid()
      reads this
    {
      IsAbsolute(cwd) && Normal(cwd) && WellFormed(tree)
    }

    constructor (cwd: string, tree: Tree)
      requires IsAbsolute(cwd) && Normal(cwd) && WellFormed(tree)
      ensures Valid() && this.cwd == cwd && this.tree == tree
    {
      this.cwd := cwd;
      this.tree := tree;
    }

    /** `os.path.isdir(path)`, without following symbolic links. */
    predicate IsDir(path: string)
      reads this
    {
      OsIsDir(tree, cwd, path)
    }

    /** `os.mkdir(path)`. */
    method Mkdir(path: string) returns (o: Outcome)
      requires Valid()
      modifies this
      ensures Valid()
      ensures (o, tree) == OsMkdir(old(tree), cwd, path)
    {
      AbsPathIdempotent(cwd, path);
      CreateKeepsWellFormed(tree, AbsPath(cwd, path), Directory);
      var step := OsMkdir(tree, cwd, path);
      o, tree := step.0, step.1;
    }

    /** `os.symlink(target, link)`. */
    method Symlink(target: string, link: string) returns (o: Outcome)
      requires Valid()
      modifies this
      ensures Valid()
      ensures (o, tree) == OsSymlink(old(tree), cwd, target, link)
    {
      AbsPathIdempotent(cwd, link);
      CreateKeepsWellFormed(tree, AbsPath(cwd, link), Node.Symlink(target));
      var step := OsSymlink(tree, cwd, target, link);
      o, tree := step.0, step.1;
    }

    /** `os.rename(src, dst)`. */
    method Rename(src: string, dst: string) returns (o: Outcome)
      requires Valid()
      modifies this
      ensures Valid()
      ensures (o, tree) == OsRename(old(tree), cwd, src, dst)
    {
      AbsPathIdempotent(cwd, dst);
      RenameKeepsWellFormed(tree, AbsPath(cwd, src), AbsPath(cwd, dst));
      var step := OsRename(tree, cwd, src, dst);
      o, tree := step.0, step.1;
    }

    /** `glob.glob(os.path.join(directory, '*.fastq.gz'))`, in the order the
        folder happens to be read. */
    method Glob(directory: string) returns (files: seq<string>)
      requires Valid()
      ensures IsListing(files, tree, cwd, directory)
    {
      var folder := AbsPath(cwd, directory);
      var prefix := GlobPrefix(directory);
      var found := set p | p in tree.Keys && p != "/" && Dirname(p) == folder && FastqName(Basename(p)) :: Join(prefix, Basename(p));
      files := ListSet(found);
    }
  }
}
