/** What the output is after a successful render. */
module RenderTheorems {
  import opened Wrappers
  import opened Selection
  import opened Trees
  import opened EmptyDirs
  import opened RenderPlan
  import opened Render

  /** The render is possible: the conditions under which it succeeds. */
  ghost predicate CanRender(t: Tree, source: Tree, wanted: set<Path>) {
    Valid(t) && Exports(source, wanted) && Fits(t, wanted) && (wanted == {} ==> IsDir(t, []))
  }

  lemma ClearedWritten(t: Tree, source: Tree, wanted: set<Path>)
    requires CanRender(t, source, wanted)
    ensures var u := Cleared(Written(t, source, wanted), wanted);
            && Valid(u) && IsDir(u, [])
            && (forall p :: IsFile(u, p) && !InGit(p) <==> p in wanted)
            && (forall rel :: rel in wanted ==> u[rel] == source[rel])
  {
    WrittenTree(t, source, wanted);
    ClearedTree(Written(t, source, wanted), wanted);
    if wanted == {} {
      assert Written(t, source, wanted) == t;
    }
  }

  lemma PrunedFiles(t: Tree)
    requires Valid(t)
    ensures forall p :: (IsFile(Pruned(t), p) <==> IsFile(t, p)) && (IsFile(t, p) ==> Pruned(t)[p] == t[p])
  {
  }

  /** Outside of .git the output has exactly the exported files, with their contents. */
  lemma RenderedFiles(t: Tree, source: Tree, wanted: set<Path>, p: Path)
    requires CanRender(t, source, wanted)
    ensures var out := Rendered(t, source, wanted);
            && Valid(out) && IsDir(out, [])
            && (IsFile(out, p) && !InGit(p) <==> p in wanted)
            && (p in wanted ==> ReadFile(out, p) == ReadFile(source, p))
  {
    ClearedWritten(t, source, wanted);
    var u := Cleared(Written(t, source, wanted), wanted);
    PrunedFiles(u);
    PrunedTree(u);
  }

  /** Every directory of the output outside of .git is the root or has something in it. */
  lemma RenderedDirs(t: Tree, source: Tree, wanted: set<Path>, p: Path)
    requires CanRender(t, source, wanted) && IsDir(Rendered(t, source, wanted), p) && p != [] && !OfGit(Rendered(t, source, wanted), p)
    ensures !IsEmptyDir(Rendered(t, source, wanted), p)
  {
    ClearedWritten(t, source, wanted);
    PrunedTree(Cleared(Written(t, source, wanted), wanted));
    var out := Rendered(t, source, wanted);
    assert Removable(out, p);
    var x :| p + [x] in out;
    assert Above(p, p + [x]);
  }

  lemma WrittenAgain(t: Tree, source: Tree, wanted: set<Path>)
    requires Valid(t) && Exports(source, wanted) && IsDir(t, []) && forall rel :: rel in wanted ==> rel in t && t[rel] == source[rel]
    ensures Fits(t, wanted) && Written(t, source, wanted) == t
  {
    forall rel | rel in wanted
      ensures FitsOne(t, rel)
    {
      FitsAlready(t, rel);
    }
    forall p | p in Ancestries(wanted)
      ensures p in t
    {
      AncestriesAre(wanted, p);
      var rel :| rel in wanted && p <= rel;
      assert p == rel || Above(p, rel);
    }
  }

  /** A second render succeeds, changes nothing and reports no changes. */
  lemma RenderTwice(t: Tree, source: Tree, wanted: set<Path>)
    requires CanRender(t, source, wanted)
    ensures var out := Rendered(t, source, wanted);
            && CanRender(out, source, wanted) && Rendered(out, source, wanted) == out
  {
    ClearedWritten(t, source, wanted);
    var u, out := Cleared(Written(t, source, wanted), wanted), Rendered(t, source, wanted);
    PrunedFiles(u);
    PrunedTree(u);
    PrunedTwice(u);
    WrittenAgain(out, source, wanted);
    assert Cleared(out, wanted) == out;
  }

  lemma {:induction false} NothingKept(rows: seq<Path>, keep: Path -> bool)
    requires forall row :: row in rows ==> !keep(row)
    ensures Filter(rows, keep) == []
  {
    if rows != [] {
      NothingKept(rows[..|rows| - 1], keep);
    }
  }

  lemma HasFirst(rows: seq<Path>)
    ensures rows == [] || rows[0] in rows
  {
  }

  lemma NoChanges(s: Summary, t: Tree, source: Tree, wanted: set<Path>, files: seq<Path>)
    requires CanRender(t, source, wanted) && wanted == SetOf(files)
    requires Summarizes(s, Rendered(t, source, wanted), source, files)
    ensures s.added == [] && s.updated == [] && s.deleted == [] && s.same == |files|
  {
    var out := Rendered(t, source, wanted);
    var b := Before(out, source);
    forall rel | rel in files
      ensures b.Same(rel)
    {
      RenderedFiles(t, source, wanted, rel);
    }
    NothingKept(files, b.Missing);
    NothingKept(files, b.Differs);
    SummaryCounts(b, files);
    forall p
      ensures p !in s.deleted
    {
      RenderedFiles(t, source, wanted, p);
    }
    HasFirst(s.deleted);
  }

  /**
   * Two renders in a row: when the first succeeds so does the second, which leaves the tree of
   * the first and reports that nothing changed.
   */
  method RenderAgain(source: Tree, m: Manifest, out: Output) returns (first: Result<Summary, RenderError>, second: Result<Summary, RenderError>)
    requires Valid(source) && !IsFile(source, []) && Valid(out.tree)
    modifies out
    ensures first.Ok? ==>
      && ToWrite(source, m).Some? && out.tree == Rendered(old(out.tree), source, ToWrite(source, m).value)
      && second.Ok? && second.value.added == [] && second.value.updated == [] && second.value.deleted == []
      && second.value.same == |ToWrite(source, m).value|
  {
    ghost var t := out.tree;
    first := Render.Render(source, m, out);
    if first.Err? {
      second := first;
      return;
    }
    ghost var wanted := ToWrite(source, m).value;
    CanRenderFrom(t, source, m);
    RenderTwice(t, source, wanted);
    second := Render.Render(source, m, out);
    NothingReported(second.value, t, source, m);
  }

  lemma NothingReported(s: Summary, t: Tree, source: Tree, m: Manifest)
    requires ToWrite(source, m).Some? && CanRender(t, source, ToWrite(source, m).value)
    requires Reports(s, Rendered(t, source, ToWrite(source, m).value), source, m)
    ensures s.added == [] && s.updated == [] && s.deleted == [] && s.same == |ToWrite(source, m).value|
  {
    var wanted := ToWrite(source, m).value;
    var files :| Sorts(files, PathLess) && (forall rel :: rel in files <==> ToExport(source, m, rel))
                 && Summarizes(s, Rendered(t, source, wanted), source, files);
    assert SetOf(files) == wanted;
    NoChanges(s, t, source, wanted, files);
    SetOfSize(files);
  }

  lemma {:induction false} SetOfSize(files: seq<Path>)
    requires Distinct(files, Itself)
    ensures |SetOf(files)| == |files|
    decreases |files|
  {
    if files != [] {
      DoneStep(files, |files| - 1);
      SetOfSize(files[..|files| - 1]);
      assert files[..|files| - 1 + 1] == files;
    }
  }

  lemma CanRenderFrom(t: Tree, source: Tree, m: Manifest)
    requires Valid(source) && !IsFile(source, []) && Valid(t) && ToWrite(source, m).Some?
    requires Fits(t, ToWrite(source, m).value) && (ToWrite(source, m).value == {} ==> IsDir(t, []))
    ensures CanRender(t, source, ToWrite(source, m).value)
  {
  }

  /** The summary accounts for every exported file once and for every old file that went. */
  lemma SummaryPartition(s: Summary, t: Tree, source: Tree, files: seq<Path>, p: Path)
    requires Summarizes(s, t, source, files) && forall rel :: rel in files ==> IsFile(source, rel)
    ensures p in s.added <==> p in files && !IsFile(t, p)
    ensures p in s.updated <==> p in files && IsFile(t, p) && ReadFile(t, p) != ReadFile(source, p)
    ensures p in s.deleted <==> IsFile(t, p) && !InGit(p) && p !in files
    ensures |s.added| + |s.updated| + s.same == |files|
  {
    SummaryCounts(Before(t, source), files);
  }
}
