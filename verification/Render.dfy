/** Making the output match the public tree exactly: internal/render/render.go. */
module Render {
  import opened Wrappers
  import opened Selection
  import opened Strings
  import opened Trees
  import opened EmptyDirs
  import opened RenderPlan

  // The tree that a render leaves

  ghost function Ancestries(files: set<Path>): set<Path> {
    set rel, p | rel in files && p in Ancestry(rel) :: p
  }

  /** The tree once these files have been written. */
  ghost function Written(t: Tree, source: Tree, files: set<Path>): Tree
    requires forall rel :: rel in files ==> rel in source
  {
    Overlaid(t, source, files, Ancestries(files))
  }

  ghost function Overlaid(t: Tree, source: Tree, files: set<Path>, dirs: set<Path>): Tree
    requires forall rel :: rel in files ==> rel in source
  {
    map p | p in t.Keys + dirs :: if p in files then source[p] else if p in t then t[p] else Dir
  }

  predicate IsStale(t: Tree, wanted: set<Path>, p: Path) {
    IsFile(t, p) && !InGit(p) && p !in wanted
  }

  ghost function Cleared(t: Tree, wanted: set<Path>): Tree {
    map p | p in t && !IsStale(t, wanted, p) :: t[p]
  }

  ghost function Rendered(t: Tree, source: Tree, wanted: set<Path>): Tree
    requires forall rel :: rel in wanted ==> rel in source
  {
    Pruned(Cleared(Written(t, source, wanted), wanted))
  }

  /** No directory is where a file has to go, and no file where its directory has to be. */
  ghost predicate Fits(t: Tree, files: set<Path>) {
    forall rel :: rel in files ==> FitsOne(t, rel)
  }

  ghost predicate FitsOne(t: Tree, rel: Path) {
    !IsDir(t, rel) && forall p :: Above(p, rel) ==> !IsFile(t, p)
  }

  /** A source and files of it to export. */
  ghost predicate Exports(source: Tree, files: set<Path>) {
    Valid(source) && forall rel :: rel in files ==> IsFile(source, rel) && !InGit(rel) && rel != []
  }

  /** Everything in and under directories called .git is the same in both. */
  ghost predicate GitKept(t: Tree, u: Tree) {
    forall p :: (p in t && OfGit(t, p) <==> p in u && OfGit(u, p)) && (p in t && OfGit(t, p) ==> t[p] == u[p])
  }

  // Writing

  lemma AncestriesAre(files: set<Path>, p: Path)
    ensures p in Ancestries(files) <==> exists rel :: rel in files && p <= rel
  {
    forall rel | rel in files
      ensures p in Ancestry(rel) <==> p <= rel
    {
      AncestryIs(rel, p);
    }
  }

  /** Files written before are never in the way of another file. */
  lemma WrittenElsewhere(t: Tree, source: Tree, done: set<Path>, rel: Path)
    requires Exports(source, done + {rel}) && rel !in done
    ensures forall p :: Above(p, rel) ==> p !in done
    ensures var u := Written(t, source, done);
            && (rel in u <==> rel in t) && (rel in t ==> u[rel] == t[rel])
            && forall p :: Above(p, rel) ==> (IsFile(u, p) <==> IsFile(t, p))
  {
    AncestriesAre(done, rel);
    forall w | w in done
      ensures !(rel <= w) && !Above(w, rel)
    {
      assert rel <= w ==> rel == w || Above(rel, w);
    }
  }

  /** What writing one more file adds to the paths that exist. */
  lemma AncestriesStep(done: set<Path>, rel: Path)
    requires rel != []
    ensures done <= Ancestries(done)
    ensures Ancestries(done + {rel}) == Ancestries(done) + Ancestry(rel[..|rel| - 1]) + {rel}
  {
    AncestryStep(rel);
    assert Ancestries(done + {rel}) == Ancestries(done) + Ancestry(rel);
    forall p | p in done
      ensures p in Ancestries(done)
    {
      AncestriesAre(done, p);
    }
  }

  lemma AncestryStep(rel: Path)
    requires rel != []
    ensures Ancestry(rel) == Ancestry(rel[..|rel| - 1]) + {rel}
    ensures forall p :: p in Ancestry(rel[..|rel| - 1]) <==> Above(p, rel)
  {
    var dir := rel[..|rel| - 1];
    forall p
      ensures p in Ancestry(dir) <==> Above(p, rel)
      ensures p in Ancestry(rel) <==> p <= rel
    {
      AncestryIs(dir, p);
      AncestryIs(rel, p);
    }
  }

  /** MkdirAll and WriteFile, one after the other. */
  lemma WriteOne(t: Tree, source: Tree, done: set<Path>, rel: Path)
    requires Exports(source, done + {rel}) && rel !in done
    ensures var made := MkdirAll(Written(t, source, done), rel[..|rel| - 1]);
            && (FitsOne(t, rel) <==> made.Some? && WriteFile(made.value, rel, source[rel].content).Some?)
            && (FitsOne(t, rel) ==> WriteFile(made.value, rel, source[rel].content) == Some(Written(t, source, done + {rel})))
  {
    var u, dir := Written(t, source, done), rel[..|rel| - 1];
    WrittenElsewhere(t, source, done, rel);
    MadeAndWritten(t, source, done, rel);
    AncestryStep(rel);
    AncestryIs(dir, dir);
    DirsMade(u, dir, rel);
    assert FitsOne(u, rel) <==> FitsOne(t, rel);
  }

  lemma DirsMade(u: Tree, dir: Path, rel: Path)
    requires rel != [] && dir == rel[..|rel| - 1] && dir in Ancestry(dir)
    requires forall p :: p in Ancestry(dir) <==> Above(p, rel)
    ensures var made := MkdirAll(u, dir);
            && (made.Some? ==> IsDir(made.value, dir) && (IsDir(made.value, rel) <==> IsDir(u, rel)))
            && (made.Some? <==> forall p :: Above(p, rel) ==> !IsFile(u, p))
  {
  }

  lemma MadeAndWritten(t: Tree, source: Tree, done: set<Path>, rel: Path)
    requires Exports(source, done + {rel})
    ensures WithDirs(Written(t, source, done), Ancestry(rel[..|rel| - 1]))[rel := source[rel]] == Written(t, source, done + {rel})
  {
    AncestriesStep(done, rel);
    Overlay(t, source, done, Ancestries(done), Ancestry(rel[..|rel| - 1]), rel);
  }

  lemma Overlay(t: Tree, source: Tree, done: set<Path>, dirs: set<Path>, more: set<Path>, rel: Path)
    requires rel in source && done <= dirs && forall p :: p in done ==> p in source
    ensures WithDirs(Overlaid(t, source, done, dirs), more)[rel := source[rel]] == Overlaid(t, source, done + {rel}, dirs + more + {rel})
  {
  }

  /** A file that already has its content needs no write. */
  lemma WriteNone(t: Tree, source: Tree, done: set<Path>, rel: Path)
    requires Exports(source, done + {rel}) && Valid(t) && ReadFile(t, rel) == Some(source[rel].content)
    ensures FitsOne(t, rel) && Written(t, source, done + {rel}) == Written(t, source, done)
  {
    FitsAlready(t, rel);
    AncestriesStep(done, rel);
    OverlayNothing(t, source, done, Ancestries(done), Ancestry(rel[..|rel| - 1]), rel);
  }

  lemma FitsAlready(t: Tree, rel: Path)
    requires Valid(t) && IsFile(t, rel) && rel != []
    ensures FitsOne(t, rel) && Ancestry(rel[..|rel| - 1]) <= t.Keys
  {
    AncestryStep(rel);
    forall p | p in Ancestry(rel[..|rel| - 1])
      ensures p in t
    {
      assert Above(p, rel);
    }
  }

  lemma OverlayNothing(t: Tree, source: Tree, done: set<Path>, dirs: set<Path>, more: set<Path>, rel: Path)
    requires rel in source && rel in t && t[rel] == source[rel] && more <= t.Keys && forall p :: p in done ==> p in source
    ensures Overlaid(t, source, done + {rel}, dirs + more + {rel}) == Overlaid(t, source, done, dirs)
  {
  }

  /** Writing does not touch .git, even when it stops half way. */
  lemma MkdirKeepsGit(t: Tree, rel: Path)
    requires rel != [] && !InGit(rel) && MkdirAll(t, rel[..|rel| - 1]).Some?
    ensures GitKept(t, MkdirAll(t, rel[..|rel| - 1]).value)
  {
    AncestryStep(rel);
    forall p | Above(p, rel)
      ensures !InGit(p) && (p != [] ==> p[|p| - 1] != GIT)
    {
      if InGit(p) {
        InGitBelow(p, rel);
      }
      if p != [] && p[|p| - 1] == GIT {
        BelowGit(p, rel);
      }
    }
  }

  lemma WriteKeepsGit(t: Tree, rel: Path, content: string)
    requires !InGit(rel) && WriteFile(t, rel, content).Some?
    ensures GitKept(t, WriteFile(t, rel, content).value)
  {
  }

  lemma GitKeptTwice(t: Tree, u: Tree, v: Tree)
    requires GitKept(t, u) && GitKept(u, v)
    ensures GitKept(t, v)
  {
  }

  // The summary

  /** What the loop over the files compares with. */
  datatype Before = Before(tree: Tree, source: Tree)
  {
    predicate Same(rel: Path) {
      IsFile(source, rel) && ReadFile(tree, rel) == Some(source[rel].content)
    }

    predicate Differs(rel: Path) {
      IsFile(tree, rel) && !Same(rel)
    }

    predicate Missing(rel: Path) {
      !IsFile(tree, rel)
    }
  }

  datatype Summary = Summary(tasks: seq<string>, added: seq<Path>, updated: seq<Path>, deleted: seq<Path>, same: nat)

  ghost predicate Counted(b: Before, files: seq<Path>, added: seq<Path>, updated: seq<Path>, same: nat) {
    added == Filter(files, b.Missing) && updated == Filter(files, b.Differs) && same == |Filter(files, b.Same)|
  }

  lemma CountedStep(b: Before, files: seq<Path>, rel: Path, added: seq<Path>, updated: seq<Path>, same: nat)
    requires Counted(b, files, added, updated, same) && IsFile(b.source, rel)
    ensures var existing := ReadFile(b.tree, rel);
            if existing == Some(b.source[rel].content) then Counted(b, files + [rel], added, updated, same + 1)
            else if existing.Some? then Counted(b, files + [rel], added, updated + [rel], same)
            else Counted(b, files + [rel], added + [rel], updated, same)
  {
    FilterStep(files, rel, b.Missing);
    FilterStep(files, rel, b.Differs);
    FilterStep(files, rel, b.Same);
  }

  /** added, updated and unchanged split the exported files; deleted is what was there besides. */
  ghost predicate Summarizes(s: Summary, t: Tree, source: Tree, files: seq<Path>) {
    var b := Before(t, source);
    && Counted(b, files, s.added, s.updated, s.same)
    && (forall p :: p in s.deleted <==> IsFile(t, p) && !InGit(p) && p !in files)
    && Distinct(s.deleted, Itself)
  }

  lemma {:induction false} SummaryCounts(b: Before, files: seq<Path>)
    ensures |Filter(files, b.Missing)| + |Filter(files, b.Differs)| + |Filter(files, b.Same)| == |files|
  {
    if files != [] {
      SummaryCounts(b, files[..|files| - 1]);
    }
  }

  ghost function SetOf(files: seq<Path>): set<Path> {
    set rel | rel in files
  }

  /** The whole of it for some files of the source. */
  class Renderer {
    const out: Output

    constructor (out: Output)
      ensures this.out == out
    {
      this.out := out;
    }

    method WriteOneFile(rel: Path, content: string) returns (ok: bool)
      requires rel != [] && !InGit(rel)
      modifies out
      ensures GitKept(old(out.tree), out.tree)
      ensures var made := MkdirAll(old(out.tree), rel[..|rel| - 1]);
              && (ok <==> made.Some? && WriteFile(made.value, rel, content).Some?)
              && (ok ==> Some(out.tree) == WriteFile(made.value, rel, content))
    {
      var made := MkdirAll(out.tree, rel[..|rel| - 1]);
      if made.None? {
        return false;
      }
      MkdirKeepsGit(out.tree, rel);
      var written := WriteFile(made.value, rel, content);
      if written.None? {
        out.tree := made.value;
        return false;
      }
      WriteKeepsGit(made.value, rel, content);
      GitKeptTwice(out.tree, made.value, written.value);
      out.tree := written.value;
      ok := true;
    }

    /** One round of the loop: the file as it was, and then as it has to be. */
    method PutFile(source: Tree, rel: Path, ghost t: Tree, ghost done: set<Path>) returns (ok: bool, existing: Option<string>)
      requires Valid(t) && Exports(source, done + {rel}) && rel !in done && out.tree == Written(t, source, done)
      modifies out
      ensures existing == ReadFile(t, rel) && (ok <==> FitsOne(t, rel))
      ensures ok ==> out.tree == Written(t, source, done + {rel})
      ensures GitKept(old(out.tree), out.tree)
    {
      WrittenElsewhere(t, source, done, rel);
      existing := ReadFile(out.tree, rel);
      if existing == Some(source[rel].content) {
        WriteNone(t, source, done, rel);
        return true, existing;
      }
      WriteOne(t, source, done, rel);
      ok := WriteOneFile(rel, source[rel].content);
    }

    method WriteFiles(source: Tree, files: seq<Path>) returns (failed: Option<Path>, added: seq<Path>, updated: seq<Path>, same: nat)
      requires Valid(out.tree) && Exports(source, SetOf(files)) && Distinct(files, Itself)
      modifies out
      ensures GitKept(old(out.tree), out.tree)
      ensures failed.None? <==> Fits(old(out.tree), SetOf(files))
      ensures failed.None? ==>
        && out.tree == Written(old(out.tree), source, SetOf(files))
        && Counted(Before(old(out.tree), source), files, added, updated, same)
    {
      added, updated, same := [], [], 0;
      ghost var t := out.tree;
      ghost var b := Before(t, source);
      assert Written(t, source, {}) == t;
      for i := 0 to |files|
        invariant SetOf(files[..i]) <= SetOf(files)
        invariant out.tree == Written(t, source, SetOf(files[..i]))
        invariant Fits(t, SetOf(files[..i])) && GitKept(t, out.tree)
        invariant Counted(b, files[..i], added, updated, same)
      {
        var rel := files[i];
        ghost var before := out.tree;
        DoneStep(files, i);
        CountedStep(b, files[..i], rel, added, updated, same);
        var ok, existing := PutFile(source, rel, t, SetOf(files[..i]));
        GitKeptTwice(t, before, out.tree);
        if !ok {
          assert rel in SetOf(files);
          return Some(rel), added, updated, same;
        }
        if existing == Some(source[rel].content) {
          same := same + 1;
        } else if existing.Some? {
          updated := updated + [rel];
        } else {
          added := added + [rel];
        }
      }
      assert files[..|files|] == files;
      failed := None;
    }

    /** Removes the stale files; None when there is no directory to walk. */
    method RemoveStale(wanted: set<Path>) returns (deleted: Option<seq<Path>>)
      modifies out
      ensures deleted.Some? <==> [] in old(out.tree)
      ensures out.tree == if deleted.Some? then Cleared(old(out.tree), wanted) else old(out.tree)
      ensures deleted.Some? ==>
        Distinct(deleted.value, Itself) && forall p :: p in deleted.value <==> p in old(out.tree) && IsStale(old(out.tree), wanted, p)
    {
      if [] !in out.tree {
        return None;
      }
      ghost var t := out.tree;
      var entries := Walk(out.tree);
      var stale := [];
      for i := 0 to |entries|
        invariant out.tree == t
        invariant Distinct(stale, Itself) && forall p :: p in stale <==> p in entries[..i] && IsStale(t, wanted, p)
      {
        assert entries[..i + 1] == entries[..i] + [entries[i]];
        assert entries[i] !in entries[..i];
        if IsStale(out.tree, wanted, entries[i]) {
          stale := stale + [entries[i]];
        }
      }
      assert entries[..|entries|] == entries;
      var removed := [];
      for i := 0 to |stale|
        invariant removed == stale[..i]
        invariant out.tree == map p | p in t && p !in stale[..i] :: t[p]
      {
        assert stale[..i + 1] == stale[..i] + [stale[i]];
        out.tree := out.tree - {stale[i]};
        removed := removed + [stale[i]];
      }
      assert stale[..|stale|] == stale;
      deleted := Some(removed);
    }
  }

  /** Where files fit the tree stays a tree, with just these files besides its own. */
  lemma WrittenTree(t: Tree, source: Tree, files: set<Path>)
    requires Valid(t) && Exports(source, files) && Fits(t, files)
    ensures Valid(Written(t, source, files))
    ensures forall p :: IsFile(Written(t, source, files), p) <==> p in files || IsFile(t, p)
    ensures files != {} ==> IsDir(Written(t, source, files), [])
  {
    var u := Written(t, source, files);
    forall p
      ensures p in Ancestries(files) <==> exists rel :: rel in files && p <= rel
    {
      AncestriesAre(files, p);
    }
    forall p, q | p in u && Above(q, p)
      ensures IsDir(u, q)
    {
      AboveWritten(t, source, files, p, q);
    }
    if rel :| rel in files {
      assert [] <= rel && Above([], rel);
      assert rel in u;
    }
  }

  lemma AboveWritten(t: Tree, source: Tree, files: set<Path>, p: Path, q: Path)
    requires Valid(t) && Exports(source, files) && Fits(t, files) && p in Written(t, source, files) && Above(q, p)
    ensures IsDir(Written(t, source, files), q)
  {
    AncestriesAre(files, p);
    AncestriesAre(files, q);
    if rel :| rel in files && p <= rel {
      assert q <= rel && Above(q, rel);
      assert FitsOne(t, rel) && IsDir(source, q);
    } else {
      assert p in t && IsDir(t, q);
      assert q !in files;
    }
  }

  lemma ClearedTree(t: Tree, wanted: set<Path>)
    requires Valid(t)
    ensures Valid(Cleared(t, wanted)) && GitKept(t, Cleared(t, wanted))
  {
  }

  lemma PrunedKeepsGit(t: Tree)
    requires Valid(t)
    ensures GitKept(t, Pruned(t))
  {
    PrunedTree(t);
  }

  lemma WantedExports(source: Tree, m: Manifest, files: seq<Path>)
    requires Valid(source) && !IsFile(source, []) && forall rel :: rel in files ==> ToExport(source, m, rel)
    ensures Exports(source, SetOf(files))
  {
  }

  /** The summary is about the exported files, each listed once. */
  ghost predicate Reports(s: Summary, t: Tree, source: Tree, m: Manifest) {
    && Sorts(s.tasks, StringLess) && (forall task :: task in s.tasks <==> IsPublic(m, task))
    && exists files :: Sorts(files, PathLess) && (forall rel :: rel in files <==> ToExport(source, m, rel)) && Summarizes(s, t, source, files)
  }

  /** LoadManifest is done; the source and the output do not overlap. */
  method Render(source: Tree, m: Manifest, out: Output) returns (result: Result<Summary, RenderError>)
    requires Valid(source) && !IsFile(source, []) && Valid(out.tree)
    modifies out
    ensures GitKept(old(out.tree), out.tree)
    ensures ToWrite(source, m).None? ==> result.Err? && out.tree == old(out.tree)
    ensures ToWrite(source, m).Some? ==>
      && (result.Ok? <==> Fits(old(out.tree), ToWrite(source, m).value) && (ToWrite(source, m).value == {} ==> IsDir(old(out.tree), [])))
      && (result.Ok? ==>
            && out.tree == Rendered(old(out.tree), source, ToWrite(source, m).value)
            && Reports(result.value, old(out.tree), source, m))
  {
    var plan := Plan(source, m);
    if plan.Err? {
      return Err(plan.error);
    }
    var tasks, files := plan.value.tasks, plan.value.files;
    var leak := CheckLeaks(source, files, m.forbid);
    ghost var wanted := ToWrite(source, m);
    if leak.Some? {
      return Err(leak.value);
    }
    assert wanted.Some? && wanted.value == SetOf(files);
    WantedExports(source, m, files);
    result := Apply(source, tasks, files, out);
  }

  /** The second half: the planned files are written and the rest goes. */
  method Apply(source: Tree, tasks: seq<string>, files: seq<Path>, out: Output) returns (result: Result<Summary, RenderError>)
    requires Exports(source, SetOf(files)) && Distinct(files, Itself) && Valid(out.tree)
    modifies out
    ensures GitKept(old(out.tree), out.tree)
    ensures result.Ok? <==> Fits(old(out.tree), SetOf(files)) && (SetOf(files) == {} ==> IsDir(old(out.tree), []))
    ensures result.Ok? ==>
      && out.tree == Rendered(old(out.tree), source, SetOf(files))
      && result.value.tasks == tasks && Summarizes(result.value, old(out.tree), source, files)
  {
    ghost var t := out.tree;
    var renderer := new Renderer(out);
    var failed, added, updated, same := renderer.WriteFiles(source, files);
    if failed.Some? {
      return Err(WriteFailed(failed.value));
    }
    ghost var written := out.tree;
    WrittenTree(t, source, SetOf(files));
    var deleted := CleanUp(renderer, set rel | rel in files);
    GitKeptTwice(t, written, out.tree);
    if deleted.None? {
      return Err(WalkFailed);
    }
    result := Ok(Summary(tasks, added, updated, deleted.value, same));
    assert Summarizes(result.value, t, source, files);
  }

  /** Everything after the writing: stale files and empty directories; None when there is nothing to walk. */
  method CleanUp(renderer: Renderer, wanted: set<Path>) returns (deleted: Option<seq<Path>>)
    requires Valid(renderer.out.tree)
    modifies renderer.out
    ensures GitKept(old(renderer.out.tree), renderer.out.tree)
    ensures deleted.Some? <==> [] in old(renderer.out.tree) && !IsStale(old(renderer.out.tree), wanted, [])
    ensures deleted.Some? ==>
      && renderer.out.tree == Pruned(Cleared(old(renderer.out.tree), wanted))
      && Distinct(deleted.value, Itself)
      && forall p :: p in deleted.value <==> p in old(renderer.out.tree) && IsStale(old(renderer.out.tree), wanted, p)
  {
    ghost var t := renderer.out.tree;
    deleted := renderer.RemoveStale(wanted);
    if deleted.None? {
      return;
    }
    ClearedTree(t, wanted);
    ghost var cleared := renderer.out.tree;
    var ok := renderer.out.RemoveEmptyDirs();
    PrunedKeepsGit(cleared);
    GitKeptTwice(t, cleared, renderer.out.tree);
    if !ok {
      deleted := None;
    }
  }

  /** The files to write; None when the plan fails or a file leaks. */
  ghost function ToWrite(source: Tree, m: Manifest): (files: Option<set<Path>>)
    ensures files.Some? ==> forall rel :: rel in files.value <==> ToExport(source, m, rel)
    ensures files.None? <==> PlanFails(source, m) || exists rel :: ToExport(source, m, rel) && Leaks(source, rel, m.forbid)
  {
    if PlanFails(source, m) || exists rel :: ToExport(source, m, rel) && Leaks(source, rel, m.forbid) then None
    else Some(set rel | rel in source && ToExport(source, m, rel))
  }

  lemma DoneStep(files: seq<Path>, i: nat)
    requires i < |files| && Distinct(files, Itself)
    ensures files[i] !in SetOf(files[..i]) && SetOf(files[..i + 1]) == SetOf(files[..i]) + {files[i]} <= SetOf(files)
    ensures files[..i + 1] == files[..i] + [files[i]]
  {
    forall k | 0 <= k < i
      ensures files[k] != files[i]
    {
      assert Itself(files[k]) != Itself(files[i]);
    }
    assert files[..i + 1] == files[..i] + [files[i]];
  }
}
