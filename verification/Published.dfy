/** Which files become public, said without the renderer's own tests, and how path names are read. */
module Published {
  import opened Wrappers
  import opened Selection
  import opened Trees
  import opened EmptyDirs
  import opened RenderPlan
  import opened Render
  import opened RenderTheorems

  // Names

  predicate IsPlain(segment: string) {
    segment != "" && segment != "." && segment != ".." && '/' !in segment
  }

  ghost predicate AllPlain(p: Path) {
    forall i :: 0 <= i < |p| ==> IsPlain(p[i])
  }

  predicate AllSlashes(s: string) {
    forall i :: 0 <= i < |s| ==> s[i] == '/'
  }

  lemma MoreSlashes(name: string, i: nat)
    requires name != "" && name[0] == '/' && i < |name| && AllSlashes(name[1..][..i])
    ensures AllSlashes(name[..i + 1])
  {
    forall k | 0 < k <= i
      ensures name[k] == '/'
    {
      assert name[k] == name[1..][..i][k - 1];
    }
  }

  lemma SlashesMore(name: string, j: nat)
    requires name != "" && name[|name| - 1] == '/' && j < |name| && AllSlashes(name[..|name| - 1][j..])
    ensures AllSlashes(name[j..])
  {
    forall k | j <= k < |name| - 1
      ensures name[k] == '/'
    {
      assert name[k] == name[..|name| - 1][j..][k - j];
    }
  }

  /** What is trimmed is slashes, and no slash is left at either end. */
  lemma {:induction false} Trimmed(name: string) returns (i: nat, j: nat)
    ensures i <= j <= |name| && TrimSlashes(name) == name[i..j] && AllSlashes(name[..i]) && AllSlashes(name[j..])
    ensures i < j ==> name[i] != '/' && name[j - 1] != '/'
    decreases |name|
  {
    if name == "" {
      i, j := 0, 0;
    } else if name[0] == '/' {
      i, j := Trimmed(name[1..]);
      MoreSlashes(name, i);
      assert name[1..][i..j] == name[i + 1..j + 1] && name[1..][j..] == name[j + 1..];
      i, j := i + 1, j + 1;
    } else if name[|name| - 1] == '/' {
      i, j := Trimmed(name[..|name| - 1]);
      SlashesMore(name, j);
      assert name[..|name| - 1][..i] == name[..i] && name[..|name| - 1][i..j] == name[i..j];
    } else {
      i, j := 0, |name|;
    }
  }

  lemma {:induction false} SlashAfter(segment: string, rest: string)
    requires '/' !in segment
    ensures FirstSlash(segment + "/" + rest) == |segment| && FirstSlash(segment) == |segment|
    decreases |segment|
  {
    if segment != "" {
      SlashAfter(segment[1..], rest);
      assert (segment + "/" + rest)[1..] == segment[1..] + "/" + rest;
    }
  }

  /** The segments of a name are what was joined to it. */
  lemma {:induction false} JoinedSegments(p: Path)
    requires AllPlain(p)
    ensures Segments(Joined(p)) == p
    decreases |p|
  {
    if p != [] {
      var first, rest := p[0], Joined(p[1..]);
      SlashAfter(first, rest);
      if |p| == 1 {
        assert first[..|first|] == first;
      } else {
        JoinedSegments(p[1..]);
        var name := first + "/" + rest;
        assert name[..|first|] == first && name[|first| + 1..] == rest;
      }
    }
  }

  lemma {:induction false} CleanInParts(clean: Path, a: Path, b: Path)
    ensures CleanInto(clean, a + b) == CleanInto(CleanInto(clean, a), b)
    decreases |a|
  {
    if a == [] {
      assert a + b == b;
    } else {
      assert (a + b)[1..] == a[1..] + b;
      var segment := a[0];
      if segment == "" || segment == "." {
        CleanInParts(clean, a[1..], b);
      } else if segment == ".." && clean != [] && clean[|clean| - 1] != ".." {
        CleanInParts(clean[..|clean| - 1], a[1..], b);
      } else {
        CleanInParts(clean + [segment], a[1..], b);
      }
    }
  }

  lemma DotsTaken(clean: Path, segment: string)
    requires IsPlain(segment)
    ensures CleanInto(clean, ["."]) == clean && CleanInto(clean, [segment, ".."]) == clean
  {
    var more := clean + [segment];
    assert more[..|more| - 1] == clean && more[|more| - 1] == segment;
    assert ["."][1..] == [] && [segment, ".."][1..] == [".."] && [".."][1..] == [];
    assert CleanInto(more, [".."]) == CleanInto(clean, []);
    assert CleanInto(clean, [segment, ".."]) == CleanInto(more, [".."]);
  }

  /** A dot is nothing, and two dots take the plain segment before them along. */
  lemma CleanedDots(a: Path, segment: string, b: Path)
    requires IsPlain(segment)
    ensures Cleaned(a + ["."] + b) == Cleaned(a + b) && Cleaned(a + [segment, ".."] + b) == Cleaned(a + b)
  {
    CleanInParts([], a, b);
    CleanInParts([], a, ["."] + b);
    CleanInParts([], a, [segment, ".."] + b);
    var clean := Cleaned(a);
    assert a + ["."] + b == a + (["."] + b) && a + [segment, ".."] + b == a + ([segment, ".."] + b);
    CleanInParts(clean, ["."], b);
    CleanInParts(clean, [segment, ".."], b);
    DotsTaken(clean, segment);
  }

  lemma PlainStaysClean(p: Path)
    requires AllPlain(p)
    ensures Cleaned(p) == p
  {
    assert IsClean(p);
    assert [] + p == p;
    CleanIntoKeeps([], p);
  }

  lemma PlainStart(p: Path)
    requires AllPlain(p) && Joined(p) != ""
    ensures Joined(p)[0] != '/'
  {
    assert p[0] != "" && p[0][0] in p[0];
    assert Joined(p)[0] == p[0][0];
  }

  /** With plain names a task's directory is the one of all tasks and the task's own name below it. */
  lemma PlainDirectory(rules: Rules, dir: Path, task: Path)
    requires AllPlain(dir) && AllPlain(task) && rules.tasksDir == Joined(dir)
    ensures rules.TaskDir(Joined(task)) == dir + task
  {
    JoinedSegments(dir);
    JoinedSegments(task);
    if Joined(task) != "" {
      PlainStart(task);
    }
    PlainStaysClean(dir + task);
  }

  /** Some listing of the public tasks. */
  lemma SomeRules(m: Manifest) returns (rules: Rules)
    requires m.includes.Some? && m.excludes.Some?
    ensures RulesOf(m, rules)
  {
    var tasks := set f, g, t |
      0 <= f < |m.deadlines| && 0 <= g < |m.deadlines[f]| && 0 <= t < |m.deadlines[f][g].tasks| :: m.deadlines[f][g].tasks[t].task;
    rules := Rules(TrimSlashes(m.tasks), Enumerate(tasks), m.includes.value, m.excludes.value);
    forall task
      ensures task in tasks <==> IsPublic(m, task)
    {
      if task in tasks {
        var f, g, t :| 0 <= f < |m.deadlines| && 0 <= g < |m.deadlines[f]| && 0 <= t < |m.deadlines[f][g].tasks| && m.deadlines[f][g].tasks[t].task == task;
        assert Holds(m.deadlines[f][g], task) && Lists(m.deadlines[f], task);
      }
    }
  }

  ghost predicate HasForbidden(content: string, forbid: seq<string>) {
    exists i, k :: 0 <= i < |forbid| && 0 <= k <= |content| && forbid[i] <= content[k..]
  }

  /** There is something to write exactly if the plan works out and no published file has a forbidden text. */
  lemma WriteWhat(source: Tree, m: Manifest)
    ensures ToWrite(source, m).Some? <==>
              IsPlannable(source, m) && forall rel :: IsPublished(source, m, rel) ==> !HasForbidden(source[rel].content, m.forbid)
    ensures ToWrite(source, m).Some? ==> forall rel :: rel in ToWrite(source, m).value <==> IsPublished(source, m, rel)
  {
    Plannable(source, m);
    if IsPlannable(source, m) {
      var rules := SomeRules(m);
      forall rel
        ensures ToExport(source, m, rel) <==> IsPublished(source, m, rel)
        ensures IsPublished(source, m, rel) ==> (Leaks(source, rel, m.forbid) <==> HasForbidden(source[rel].content, m.forbid))
      {
        ExportIsPublished(source, m, rules, rel);
      }
    }
  }

  /** Whatever is in a directory .git, and the directory itself, is the same in both. */
  ghost predicate GitUntouched(t: Tree, u: Tree) {
    && (forall p, i :: 0 <= i < |p| - 1 && p[i] == ".git" ==> (p in t <==> p in u) && (p in t ==> t[p] == u[p]))
    && (forall p :: p != [] && p[|p| - 1] == ".git" ==> (IsDir(t, p) <==> IsDir(u, p)))
  }

  lemma KeptIsUntouched(t: Tree, u: Tree)
    requires GitKept(t, u)
    ensures GitUntouched(t, u)
  {
    forall p, i | 0 <= i < |p| - 1 && p[i] == ".git"
      ensures (p in t <==> p in u) && (p in t ==> t[p] == u[p])
    {
      assert InGit(p) && OfGit(t, p) && OfGit(u, p);
    }
    forall p: Path | p != [] && p[|p| - 1] == ".git"
      ensures IsDir(t, p) <==> IsDir(u, p)
    {
      assert IsDir(t, p) ==> OfGit(t, p);
      assert IsDir(u, p) ==> OfGit(u, p);
    }
  }

  /** No directory is left without an entry, but for the root and for what is in or called .git. */
  ghost predicate NoneEmpty(t: Tree) {
    forall p :: IsDir(t, p) && p != [] && (forall i :: 0 <= i < |p| ==> p[i] != ".git") ==> exists name :: p + [name] in t
  }

  lemma HasEntry(t: Tree, p: Path)
    requires !IsEmptyDir(t, p)
    ensures exists name :: p + [name] in t
  {
    var q :| q in t && |q| == |p| + 1 && Above(p, q);
    assert q == p + [q[|p|]];
  }

  lemma RenderedFull(t: Tree, source: Tree, wanted: set<Path>)
    requires CanRender(t, source, wanted)
    ensures NoneEmpty(Rendered(t, source, wanted))
  {
    forall p | IsDir(Rendered(t, source, wanted), p) && p != [] && (forall i :: 0 <= i < |p| ==> p[i] != ".git")
      ensures exists name :: p + [name] in Rendered(t, source, wanted)
    {
      RenderedDirs(t, source, wanted, p);
      HasEntry(Rendered(t, source, wanted), p);
    }
  }

  /** Out of a successful render come, outside of .git, the published files and no others, with their contents. */
  method RenderPublished(source: Tree, m: Manifest, out: Output) returns (result: Result<Summary, RenderError>)
    requires Valid(source) && !IsFile(source, []) && Valid(out.tree)
    modifies out
    ensures GitUntouched(old(out.tree), out.tree)
    ensures result.Ok? ==>
      && NoneEmpty(out.tree)
      && (forall rel :: IsPublished(source, m, rel) ==> rel in out.tree && out.tree[rel] == source[rel] && !HasForbidden(source[rel].content, m.forbid))
      && (forall p :: p in out.tree && out.tree[p].File? && (forall i :: 0 <= i < |p| - 1 ==> p[i] != ".git") ==> IsPublished(source, m, p))
  {
    ghost var t := out.tree;
    result := Render.Render(source, m, out);
    KeptIsUntouched(t, out.tree);
    if result.Ok? {
      WriteWhat(source, m);
      ghost var wanted := ToWrite(source, m).value;
      CanRenderFrom(t, source, m);
      RenderedFull(t, source, wanted);
      forall p
        ensures IsFile(out.tree, p) && !InGit(p) <==> p in wanted
        ensures p in wanted ==> ReadFile(out.tree, p) == ReadFile(source, p)
      {
        RenderedFiles(t, source, wanted, p);
      }
    }
  }
}
