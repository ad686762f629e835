/** Removing empty directories in one pass, longest path first: internal/render/render.go. */
module EmptyDirs {
  import opened Selection
  import opened Trees

  predicate Longer(a: Path, b: Path) {
    NameLength(a) > NameLength(b)
  }

  /** The tree after the pass has gone through these directories. */
  function Without(t: Tree, dirs: seq<Path>): Tree {
    map p | p in t && !(p in dirs && Hollow(t, p)) :: t[p]
  }

  /** All candidates once, longer paths before shorter ones and ties in any order. */
  ghost predicate IsAgenda(t: Tree, dirs: seq<Path>) {
    && (forall p :: p in dirs <==> Removable(t, p))
    && (forall i, j :: 0 <= i < j < |dirs| ==> dirs[i] != dirs[j])
    && Sorted(dirs, Longer)
  }

  /** A directory with content still shows some of it when its turn comes. */
  lemma ContentShows(t: Tree, dirs: seq<Path>, p: Path)
    requires Valid(t) && HasContent(t, p)
    ensures !IsEmptyDir(Without(t, dirs), p)
  {
    var q :| q in t && Above(p, q) && !Removable(t, q);
    var child := q[..|p| + 1];
    if child != q {
      assert Above(child, q) && IsDir(t, child);
      assert HasContent(t, child);
    }
    assert child in Without(t, dirs) && Above(p, child);
  }

  /** A directory without content has lost everything by the time its turn comes. */
  lemma HollowIsEmpty(t: Tree, dirs: seq<Path>, i: nat)
    requires IsAgenda(t, dirs) && i < |dirs| && !HasContent(t, dirs[i])
    ensures IsEmptyDir(Without(t, dirs[..i]), dirs[i])
  {
    var p := dirs[i];
    forall q | q in t && Above(p, q)
      ensures q in dirs[..i] && Hollow(t, q)
    {
      var j :| 0 <= j < |dirs| && dirs[j] == q;
      LongerBelow(p, q);
      assert i < j ==> !Longer(dirs[j], dirs[i]);
      assert dirs[..i][j] == q;
      assert HasContent(t, q) ==> HasContent(t, p);
    }
  }

  lemma TurnOf(t: Tree, dirs: seq<Path>, i: nat)
    requires Valid(t) && IsAgenda(t, dirs) && i < |dirs|
    ensures dirs[i] in Without(t, dirs[..i])
    ensures IsEmptyDir(Without(t, dirs[..i]), dirs[i]) <==> Hollow(t, dirs[i])
    ensures Without(t, dirs[..i + 1]) == if Hollow(t, dirs[i]) then Without(t, dirs[..i]) - {dirs[i]} else Without(t, dirs[..i])
  {
    var p := dirs[i];
    assert p in dirs && p !in dirs[..i];
    if HasContent(t, p) {
      ContentShows(t, dirs[..i], p);
    } else {
      HollowIsEmpty(t, dirs, i);
    }
    assert forall q :: q in dirs[..i + 1] <==> q in dirs[..i] || q == p;
  }

  lemma LongerOrder()
    ensures StrictWeakOrder(Longer)
  {
  }

  class Output {
    var tree: Tree

    constructor (tree: Tree)
      ensures this.tree == tree
    {
      this.tree := tree;
    }

    /** The candidates in the order of the pass. */
    method ListDirs() returns (dirs: seq<Path>)
      ensures IsAgenda(tree, dirs)
    {
      var entries := Walk(tree);
      dirs := [];
      LongerOrder();
      for i := 0 to |entries|
        invariant Sorted(dirs, Longer) && Distinct(dirs, Itself)
        invariant forall p :: p in dirs <==> p in entries[..i] && Removable(tree, p)
      {
        assert entries[..i + 1] == entries[..i] + [entries[i]];
        assert entries[i] !in entries[..i];
        if Removable(tree, entries[i]) {
          dirs := InsertNew(dirs, entries[i], Longer, Itself);
        }
      }
      assert entries[..|entries|] == entries;
      assert forall i, j :: 0 <= i < j < |dirs| ==> Itself(dirs[i]) != Itself(dirs[j]);
    }

    /** False when there is no directory to walk. */
    method RemoveEmptyDirs() returns (ok: bool)
      requires Valid(tree)
      modifies this
      ensures ok <==> [] in old(tree)
      ensures tree == if ok then Pruned(old(tree)) else old(tree)
    {
      if [] !in tree {
        return false;
      }
      var dirs := ListDirs();
      for i := 0 to |dirs|
        invariant tree == Without(old(tree), dirs[..i])
      {
        TurnOf(old(tree), dirs, i);
        if IsEmptyDir(tree, dirs[i]) {
          tree := tree - {dirs[i]};
        }
      }
      assert dirs[..|dirs|] == dirs;
      ok := true;
    }
  }

  // What the pass leaves

  /** Only directories go, and every directory that stays outside of .git has something in it. */
  lemma PrunedTree(t: Tree)
    requires Valid(t)
    ensures Valid(Pruned(t))
    ensures forall p :: p in t && (t[p].File? || OfGit(t, p) || p == []) ==> p in Pruned(t)
    ensures forall p :: Removable(Pruned(t), p) ==> exists x :: p + [x] in Pruned(t)
  {
    forall p | Removable(Pruned(t), p)
      ensures exists x :: p + [x] in Pruned(t)
    {
      assert Removable(t, p);
      ContentShows(t, [], p);
      var q :| q in t && Above(p, q) && !Removable(t, q);
      var child := q[..|p| + 1];
      ContentChild(t, p, q);
      assert child == p + [child[|p|]];
    }
    forall p, q | p in Pruned(t) && Above(q, p)
      ensures IsDir(Pruned(t), q)
    {
      if Hollow(t, q) {
        HollowBelow(t, q, p);
      }
    }
  }

  lemma HollowBelow(t: Tree, p: Path, q: Path)
    requires Hollow(t, p) && q in t && Above(p, q)
    ensures Hollow(t, q)
  {
    assert forall r :: Above(q, r) ==> Above(p, r);
  }

  lemma ContentChild(t: Tree, p: Path, q: Path)
    requires Valid(t) && q in t && Above(p, q) && !Removable(t, q)
    ensures q[..|p| + 1] in Pruned(t)
  {
    var child := q[..|p| + 1];
    if child != q {
      assert Above(child, q) && IsDir(t, child);
      assert HasContent(t, child);
    }
  }

  /** One pass is enough. */
  lemma PrunedTwice(t: Tree)
    requires Valid(t)
    ensures Pruned(Pruned(t)) == Pruned(t)
  {
    forall p | p in Pruned(t) && Removable(Pruned(t), p)
      ensures HasContent(Pruned(t), p)
    {
      assert Removable(t, p);
      var q :| q in t && Above(p, q) && !Removable(t, q);
      assert q in Pruned(t) && !Removable(Pruned(t), q);
    }
  }
}
