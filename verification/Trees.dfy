/** A directory tree and the file operations the renderer uses on it. */
module Trees {
  import opened Wrappers

  /** The segments of a clean relative path; the root is []. */
  type Path = seq<string>

  datatype Node = Dir | File(content: string)

  type Tree = map<Path, Node>

  const GIT := ".git"

  predicate Above(p: Path, q: Path) {
    p < q
  }

  predicate IsFile(t: Tree, p: Path) {
    p in t && t[p].File?
  }

  predicate IsDir(t: Tree, p: Path) {
    p in t && t[p].Dir?
  }

  /** What is above an entry is a directory. */
  ghost predicate Valid(t: Tree) {
    forall p, q :: p in t && Above(q, p) ==> IsDir(t, q)
  }

  /** Below a directory called .git, so that a walk that skips those never comes here. */
  predicate InGit(p: Path) {
    exists i :: 0 <= i < |p| - 1 && p[i] == GIT
  }

  /** The directory .git itself, or anything in it. */
  predicate OfGit(t: Tree, p: Path) {
    InGit(p) || (p != [] && p[|p| - 1] == GIT && IsDir(t, p))
  }

  function ReadFile(t: Tree, p: Path): Option<string> {
    if IsFile(t, p) then Some(t[p].content) else None
  }

  function Ancestry(p: Path): set<Path> {
    set i | 0 <= i <= |p| :: p[..i]
  }

  lemma AncestryIs(p: Path, q: Path)
    ensures q in Ancestry(p) <==> q <= p
  {
    if q <= p {
      assert p[..|q|] == q;
    }
  }

  /** os.MkdirAll: fails where the path runs into a file. */
  function MkdirAll(t: Tree, dir: Path): Option<Tree> {
    if exists p :: p in Ancestry(dir) && IsFile(t, p) then None else Some(WithDirs(t, Ancestry(dir)))
  }

  function WithDirs(t: Tree, dirs: set<Path>): Tree {
    map p | p in t.Keys + dirs :: if p in t then t[p] else Dir
  }

  /** os.WriteFile: the directory must be there, and no directory in its place. */
  function WriteFile(t: Tree, p: Path, content: string): Option<Tree> {
    if IsDir(t, p) || (p != [] && !IsDir(t, p[..|p| - 1])) then None else Some(t[p := File(content)])
  }

  /** os.ReadDir of a directory: nothing directly below it. */
  predicate IsEmptyDir(t: Tree, p: Path) {
    forall q :: q in t ==> |q| != |p| + 1 || !Above(p, q)
  }

  /** Any listing of the entries outside of .git directories; the walk also shows those directories. */
  method Walk(t: Tree) returns (entries: seq<Path>)
    ensures forall p :: p in entries <==> p in t && !InGit(p)
    ensures forall i, j :: 0 <= i < j < |entries| ==> entries[i] != entries[j]
  {
    entries := [];
    var rest := t.Keys;
    while rest != {}
      invariant rest <= t.Keys
      invariant forall p :: p in entries <==> p in t.Keys - rest && !InGit(p)
      invariant forall i, j :: 0 <= i < j < |entries| ==> entries[i] != entries[j]
      decreases rest
    {
      var p :| p in rest;
      rest := rest - {p};
      if !InGit(p) {
        entries := entries + [p];
      }
    }
  }

  lemma InGitBelow(p: Path, q: Path)
    requires InGit(p) && Above(p, q)
    ensures InGit(q)
  {
    var i :| 0 <= i < |p| - 1 && p[i] == GIT;
    assert q[i] == GIT;
  }

  lemma BelowGit(p: Path, q: Path)
    requires p != [] && p[|p| - 1] == GIT && Above(p, q)
    ensures InGit(q)
  {
    assert q[|p| - 1] == GIT;
  }

  // Empty directories

  predicate Removable(t: Tree, p: Path) {
    IsDir(t, p) && p != [] && !OfGit(t, p)
  }

  /** Something below is not a removable directory. */
  predicate HasContent(t: Tree, p: Path) {
    exists q :: q in t && Above(p, q) && !Removable(t, q)
  }

  predicate Hollow(t: Tree, p: Path) {
    Removable(t, p) && !HasContent(t, p)
  }

  /** The tree without the directories that are or become empty. */
  function Pruned(t: Tree): Tree {
    map p | p in t && !Hollow(t, p) :: t[p]
  }

  function NameLength(p: Path): nat {
    if p == [] then 0 else NameLength(p[..|p| - 1]) + 1 + |p[|p| - 1]|
  }

  lemma {:induction false} LongerBelow(p: Path, q: Path)
    requires Above(p, q)
    ensures NameLength(p) < NameLength(q)
    decreases |q|
  {
    var parent := q[..|q| - 1];
    if p != parent {
      assert p <= parent;
      LongerBelow(p, parent);
    }
  }
}
