/** Which files of the private source are public: internal/render/render.go. */
module RenderPlan {
  import opened Wrappers
  import opened Models
  import opened Selection
  import opened Strings
  import opened Trees

  /** An unseen library decides what a pattern matches. */
  type Glob = Path -> bool

  /**
   * deadlines holds the parsed files; patterns are None when one of them does not compile;
   * outside says what exists above the source.
   */
  datatype Manifest = Manifest(
    tasks: string,
    deadlines: seq<seq<TaskGroup>>,
    includes: Option<seq<Glob>>,
    excludes: Option<seq<Glob>>,
    forbid: seq<string>,
    outside: Path -> bool)

  const MANIFEST_NAME: Path := ["course.yaml"]

  predicate IsPrivate(segment: string) {
    segment == "private" || segment == "solution"
  }

  predicate AnyMatch(globs: seq<Glob>, rel: Path) {
    exists i :: 0 <= i < |globs| && globs[i](rel)
  }

  /** The name up to its first slash. */
  function FirstSlash(name: string): (n: nat)
    ensures n <= |name|
  {
    if name == "" || name[0] == '/' then 0 else 1 + FirstSlash(name[1..])
  }

  /** The segments of a name; empty ones do not count. */
  function Segments(name: string): seq<string> {
    if name == "" then []
    else
      var n := FirstSlash(name);
      (if n == 0 then [] else [name[..n]]) + (if n == |name| then [] else Segments(name[n + 1..]))
  }

  /** path.Clean on a relative path: `.` goes, `..` takes the segment before it along. */
  function CleanInto(clean: Path, segments: seq<string>): Path
    decreases |segments|
  {
    if segments == [] then clean
    else
      var segment, rest := segments[0], segments[1..];
      if segment == "" || segment == "." then CleanInto(clean, rest)
      else if segment == ".." && clean != [] && clean[|clean| - 1] != ".." then CleanInto(clean[..|clean| - 1], rest)
      else CleanInto(clean + [segment], rest)
  }

  function Cleaned(segments: seq<string>): Path {
    CleanInto([], segments)
  }

  /** No dots but for a climb at the start. */
  predicate IsClean(p: Path) {
    && (forall i :: 0 <= i < |p| ==> p[i] != "" && p[i] != ".")
    && (forall i :: 0 < i < |p| && p[i] == ".." ==> p[i - 1] == "..")
  }

  lemma {:induction false} CleanIntoIsClean(clean: Path, segments: seq<string>)
    requires IsClean(clean)
    ensures IsClean(CleanInto(clean, segments))
    decreases |segments|
  {
    if segments != [] {
      var segment, rest := segments[0], segments[1..];
      if segment == "" || segment == "." {
        CleanIntoIsClean(clean, rest);
      } else if segment == ".." && clean != [] && clean[|clean| - 1] != ".." {
        CleanIntoIsClean(clean[..|clean| - 1], rest);
      } else {
        CleanIntoIsClean(clean + [segment], rest);
      }
    }
  }

  lemma {:induction false} CleanIntoKeeps(clean: Path, segments: seq<string>)
    requires IsClean(clean + segments)
    ensures CleanInto(clean, segments) == clean + segments
    decreases |segments|
  {
    if segments == [] {
      assert clean + segments == clean;
    } else {
      assert (clean + segments)[|clean|] == segments[0];
      assert clean != [] ==> (clean + segments)[|clean| - 1] == clean[|clean| - 1];
      assert clean + [segments[0]] + segments[1..] == clean + segments;
      CleanIntoKeeps(clean + [segments[0]], segments[1..]);
    }
  }

  /** Cleaning gives a clean path and leaves one as it is. */
  lemma CleanedTwice(segments: seq<string>)
    ensures IsClean(Cleaned(segments)) && Cleaned(Cleaned(segments)) == Cleaned(segments)
  {
    CleanIntoIsClean([], segments);
    var p := Cleaned(segments);
    assert [] + p == p;
    CleanIntoKeeps([], p);
  }

  /** strings.Trim with a slash. */
  function TrimSlashes(name: string): string
    decreases |name|
  {
    if name == "" then ""
    else if name[0] == '/' then TrimSlashes(name[1..])
    else if name[|name| - 1] == '/' then TrimSlashes(name[..|name| - 1])
    else name
  }

  datatype Rules = Rules(tasksDir: string, tasks: seq<string>, includes: seq<Glob>, excludes: seq<Glob>)
  {
    /** path.Join; a rooted or empty result, which nothing is below of, is []. */
    function TaskDir(task: string): Path {
      if tasksDir == "" && task != "" && task[0] == '/' then [] else Cleaned(Segments(tasksDir) + Segments(task))
    }

    predicate InTask(task: string, rel: Path) {
      TaskDir(task) != [] && Above(TaskDir(task), rel)
    }

    predicate Exported(rel: Path) {
      && (forall i :: 0 <= i < |rel| ==> !IsPrivate(rel[i]))
      && !AnyMatch(excludes, rel)
      && ((exists i :: 0 <= i < |tasks| && InTask(tasks[i], rel)) || AnyMatch(includes, rel))
    }
  }

  method Matches(globs: seq<Glob>, rel: Path) returns (matches: bool)
    ensures matches <==> AnyMatch(globs, rel)
  {
    for i := 0 to |globs|
      invariant forall k :: 0 <= k < i ==> !globs[k](rel)
    {
      if globs[i](rel) {
        return true;
      }
    }
    matches := false;
  }

  method IsExported(rules: Rules, rel: Path) returns (exported: bool)
    ensures exported <==> rules.Exported(rel)
  {
    for i := 0 to |rel|
      invariant forall k :: 0 <= k < i ==> !IsPrivate(rel[k])
    {
      if IsPrivate(rel[i]) {
        return false;
      }
    }
    var excluded := Matches(rules.excludes, rel);
    if excluded {
      return false;
    }
    for i := 0 to |rules.tasks|
      invariant forall k :: 0 <= k < i ==> !rules.InTask(rules.tasks[k], rel)
    {
      if rules.InTask(rules.tasks[i], rel) {
        return true;
      }
    }
    exported := Matches(rules.includes, rel);
  }

  // Tasks

  ghost predicate Holds(group: TaskGroup, task: string) {
    exists j :: 0 <= j < |group.tasks| && group.tasks[j].task == task
  }

  ghost predicate Lists(groups: seq<TaskGroup>, task: string) {
    exists i :: 0 <= i < |groups| && Holds(groups[i], task)
  }

  /** The task is in at least one deadlines file. */
  ghost predicate IsPublic(m: Manifest, task: string) {
    exists f :: 0 <= f < |m.deadlines| && Lists(m.deadlines[f], task)
  }

  /** In order and without repetition. */
  ghost predicate Sorts<T(!new)>(listing: seq<T>, less: (T, T) -> bool) {
    Sorted(listing, less) && Distinct(listing, Itself)
  }

  method GroupTasks(groups: seq<TaskGroup>, tasks: seq<string>) returns (r: seq<string>)
    requires Sorts(tasks, StringLess)
    ensures Sorts(r, StringLess) && forall task :: task in r <==> task in tasks || Lists(groups, task)
  {
    NamesAreOrdered();
    r := tasks;
    for i := 0 to |groups|
      invariant Sorts(r, StringLess)
      invariant forall task :: task in r <==> task in tasks || exists k :: 0 <= k < i && Holds(groups[k], task)
    {
      ghost var was := r;
      for j := 0 to |groups[i].tasks|
        invariant Sorts(r, StringLess)
        invariant forall task :: task in r <==> task in was || exists k :: 0 <= k < j && groups[i].tasks[k].task == task
      {
        var task := groups[i].tasks[j].task;
        if task !in r {
          r := InsertNew(r, task, StringLess, Itself);
        }
      }
    }
  }

  method PublicTasks(m: Manifest) returns (tasks: seq<string>)
    ensures Sorts(tasks, StringLess) && forall task :: task in tasks <==> IsPublic(m, task)
  {
    tasks := [];
    for f := 0 to |m.deadlines|
      invariant Sorts(tasks, StringLess)
      invariant forall task :: task in tasks <==> exists k :: 0 <= k < f && Lists(m.deadlines[k], task)
    {
      tasks := GroupTasks(m.deadlines[f], tasks);
    }
  }

  // The plan

  datatype RenderError =
    | MissingTask(task: string)
    | BadInclude
    | BadExclude
    | Leak(rel: Path, needle: string)
    | WriteFailed(rel: Path)
    | WalkFailed

  datatype Planned = Planned(tasks: seq<string>, files: seq<Path>)

  function Joined(p: Path): string {
    if p == [] then "" else if |p| == 1 then p[0] else p[0] + "/" + Joined(p[1..])
  }

  predicate PathLess(a: Path, b: Path) {
    StringLess(Joined(a), Joined(b))
  }

  lemma NamesAreOrdered()
    ensures StrictWeakOrder(StringLess) && StrictWeakOrder(PathLess)
  {
    forall a, b
      ensures StringLess(a, b) ==> !StringLess(b, a)
    {
      StringOrder(a, b, []);
    }
    forall a, b, c
      ensures StringLess(a, c) ==> StringLess(a, b) || StringLess(b, c)
    {
      StringOrder(a, b, c);
    }
  }

  /** A regular file of the source outside of .git, other than the manifest, that the rules export. */
  ghost predicate IsWanted(source: Tree, rules: Rules, rel: Path) {
    IsFile(source, rel) && !InGit(rel) && rel != MANIFEST_NAME && rules.Exported(rel)
  }

  /** The rules that the manifest gives. */
  ghost predicate RulesOf(m: Manifest, rules: Rules) {
    && rules.tasksDir == TrimSlashes(m.tasks) && m.includes == Some(rules.includes) && m.excludes == Some(rules.excludes)
    && forall task :: task in rules.tasks <==> IsPublic(m, task)
  }

  /** What is to be exported; it does not depend on how the tasks are listed. */
  ghost predicate ToExport(source: Tree, m: Manifest, rel: Path) {
    exists rules :: RulesOf(m, rules) && IsWanted(source, rules, rel)
  }

  lemma SameRules(source: Tree, m: Manifest, rules: Rules, rel: Path)
    requires RulesOf(m, rules)
    ensures ToExport(source, m, rel) <==> IsWanted(source, rules, rel)
  {
    if ToExport(source, m, rel) {
      var other :| RulesOf(m, other) && IsWanted(source, other, rel);
      if i :| 0 <= i < |other.tasks| && other.InTask(other.tasks[i], rel) {
        assert other.tasks[i] in other.tasks && other.tasks[i] in rules.tasks;
        var j :| 0 <= j < |rules.tasks| && rules.tasks[j] == other.tasks[i];
        assert rules.TaskDir(rules.tasks[j]) == other.TaskDir(other.tasks[i]);
        assert rules.InTask(rules.tasks[j], rel);
      }
    }
  }

  /** os.Stat of the task below the source, which a name may lead out of. */
  predicate TaskExists(source: Tree, m: Manifest, task: string) {
    var p := Cleaned(Segments(m.tasks) + Segments(task));
    if p != [] && p[0] == ".." then m.outside(p) else p in source
  }

  ghost predicate PlanFails(source: Tree, m: Manifest) {
    (exists task :: IsPublic(m, task) && !TaskExists(source, m, task)) || m.includes.None? || m.excludes.None?
  }

  // What is published, without the tests above

  /** The directory of the task by path.Join, unless that is the root of the source or outside of it. */
  predicate IsTaskDirectory(p: Path, tasks: string, task: string) {
    p != [] && p == Cleaned(Segments(TrimSlashes(tasks)) + Segments(task)) && !(TrimSlashes(tasks) == "" && task != "" && task[0] == '/')
  }

  /** Some deadlines file has a task whose directory the file is below of, at any depth. */
  ghost predicate InPublicTask(m: Manifest, rel: Path) {
    exists f, g, t, n ::
      0 <= f < |m.deadlines| && 0 <= g < |m.deadlines[f]| && 0 <= t < |m.deadlines[f][g].tasks| && 0 < n < |rel|
      && IsTaskDirectory(rel[..n], m.tasks, m.deadlines[f][g].tasks[t].task)
  }

  ghost predicate HasMatch(patterns: Option<seq<Glob>>, rel: Path) {
    patterns.Some? && exists i :: 0 <= i < |patterns.value| && patterns.value[i](rel)
  }

  /**
   * A regular file, not the manifest, not in a .git, nowhere under the name private or
   * solution, that no exclude pattern matches, and that is a public task's or matches an include.
   */
  ghost predicate IsPublished(source: Tree, m: Manifest, rel: Path) {
    && rel in source && source[rel].File? && rel != ["course.yaml"]
    && (forall i :: 0 <= i < |rel| - 1 ==> rel[i] != ".git")
    && (forall i :: 0 <= i < |rel| ==> rel[i] != "private" && rel[i] != "solution")
    && !HasMatch(m.excludes, rel)
    && (InPublicTask(m, rel) || HasMatch(m.includes, rel))
  }

  lemma TaskDirectories(m: Manifest, rules: Rules, rel: Path)
    requires RulesOf(m, rules)
    ensures (exists i :: 0 <= i < |rules.tasks| && rules.InTask(rules.tasks[i], rel)) <==> InPublicTask(m, rel)
  {
    if i :| 0 <= i < |rules.tasks| && rules.InTask(rules.tasks[i], rel) {
      var task := rules.tasks[i];
      assert task in rules.tasks && IsPublic(m, task);
      var f :| 0 <= f < |m.deadlines| && Lists(m.deadlines[f], task);
      var g :| 0 <= g < |m.deadlines[f]| && Holds(m.deadlines[f][g], task);
      var t :| 0 <= t < |m.deadlines[f][g].tasks| && m.deadlines[f][g].tasks[t].task == task;
      var n := |rules.TaskDir(task)|;
      assert IsTaskDirectory(rel[..n], m.tasks, m.deadlines[f][g].tasks[t].task);
    }
    if f, g, t, n :|
      0 <= f < |m.deadlines| && 0 <= g < |m.deadlines[f]| && 0 <= t < |m.deadlines[f][g].tasks| && 0 < n < |rel|
      && IsTaskDirectory(rel[..n], m.tasks, m.deadlines[f][g].tasks[t].task)
    {
      var task := m.deadlines[f][g].tasks[t].task;
      assert Holds(m.deadlines[f][g], task) && Lists(m.deadlines[f], task) && IsPublic(m, task);
      var i :| 0 <= i < |rules.tasks| && rules.tasks[i] == task;
      assert rules.InTask(rules.tasks[i], rel);
    }
  }

  /** What is exported is what is said above. */
  lemma ExportIsPublished(source: Tree, m: Manifest, rules: Rules, rel: Path)
    requires RulesOf(m, rules)
    ensures ToExport(source, m, rel) <==> IsPublished(source, m, rel)
  {
    SameRules(source, m, rules, rel);
    TaskDirectories(m, rules, rel);
  }

  /** The task's directory is in the source, or, where its name leads out of the source, it exists there. */
  predicate IsThere(source: Tree, m: Manifest, task: string) {
    var p := Cleaned(Segments(m.tasks) + Segments(task));
    (p in source.Keys && !([".."] <= p)) || ([".."] <= p && m.outside(p))
  }

  /** Every task of the deadlines files is in the tasks' directory and every pattern compiles. */
  ghost predicate IsPlannable(source: Tree, m: Manifest) {
    && m.includes.Some? && m.excludes.Some?
    && forall f, g, t ::
         0 <= f < |m.deadlines| && 0 <= g < |m.deadlines[f]| && 0 <= t < |m.deadlines[f][g].tasks| ==>
           IsThere(source, m, m.deadlines[f][g].tasks[t].task)
  }

  lemma Plannable(source: Tree, m: Manifest)
    ensures PlanFails(source, m) <==> !IsPlannable(source, m)
  {
    if task :| IsPublic(m, task) && !TaskExists(source, m, task) {
      var f :| 0 <= f < |m.deadlines| && Lists(m.deadlines[f], task);
      var g :| 0 <= g < |m.deadlines[f]| && Holds(m.deadlines[f][g], task);
      var t :| 0 <= t < |m.deadlines[f][g].tasks| && m.deadlines[f][g].tasks[t].task == task;
    }
    if f, g, t :|
      0 <= f < |m.deadlines| && 0 <= g < |m.deadlines[f]| && 0 <= t < |m.deadlines[f][g].tasks|
      && !TaskExists(source, m, m.deadlines[f][g].tasks[t].task)
    {
      var task := m.deadlines[f][g].tasks[t].task;
      assert Holds(m.deadlines[f][g], task) && Lists(m.deadlines[f], task) && IsPublic(m, task);
    }
  }

  method ListFiles(source: Tree, rules: Rules) returns (files: seq<Path>)
    ensures Sorts(files, PathLess) && forall rel :: rel in files <==> IsWanted(source, rules, rel)
  {
    var entries := Walk(source);
    NamesAreOrdered();
    files := [];
    for i := 0 to |entries|
      invariant Sorts(files, PathLess)
      invariant forall rel :: rel in files <==> rel in entries[..i] && IsWanted(source, rules, rel)
    {
      var rel := entries[i];
      assert entries[..i + 1] == entries[..i] + [rel];
      assert rel !in entries[..i];
      if rel != MANIFEST_NAME && IsFile(source, rel) {
        var exported := IsExported(rules, rel);
        if exported {
          files := InsertNew(files, rel, PathLess, Itself);
        }
      }
    }
    assert entries[..|entries|] == entries;
  }

  /** Each name comes before the later ones at the first different character. */
  ghost predicate NamesInOrder(names: seq<string>) {
    forall i, j :: 0 <= i < j < |names| ==> names[i] != names[j] && !exists k :: FirstAt(names[j], names[i], k)
  }

  /** The same of paths with slashes between their segments. */
  ghost predicate PathsInOrder(paths: seq<Path>) {
    forall i, j :: 0 <= i < j < |paths| ==> paths[i] != paths[j] && !exists k :: FirstAt(Joined(paths[j]), Joined(paths[i]), k)
  }

  lemma SortedNames(names: seq<string>)
    requires Sorts(names, StringLess)
    ensures NamesInOrder(names)
  {
    forall i, j | 0 <= i < j < |names|
      ensures Itself(names[i]) != Itself(names[j]) && !StringLess(names[j], names[i]) && !exists k :: FirstAt(names[j], names[i], k)
    {
      FirstDifference(names[j], names[i]);
    }
  }

  lemma SortedPaths(paths: seq<Path>)
    requires Sorts(paths, PathLess)
    ensures PathsInOrder(paths)
  {
    forall i, j | 0 <= i < j < |paths|
      ensures Itself(paths[i]) != Itself(paths[j]) && !PathLess(paths[j], paths[i]) && !exists k :: FirstAt(Joined(paths[j]), Joined(paths[i]), k)
    {
      FirstDifference(Joined(paths[j]), Joined(paths[i]));
    }
  }

  /** Exactly the exported files, each once and in order of their names. */
  method Plan(source: Tree, m: Manifest) returns (result: Result<Planned, RenderError>)
    ensures result.Err? <==> PlanFails(source, m)
    ensures result.Ok? <==> IsPlannable(source, m)
    ensures result.Err? ==> !result.error.Leak? && !result.error.WriteFailed? && !result.error.WalkFailed?
    ensures result.Ok? ==>
      && Sorts(result.value.tasks, StringLess) && (forall task :: task in result.value.tasks <==> IsPublic(m, task))
      && Sorts(result.value.files, PathLess) && (forall rel :: rel in result.value.files <==> ToExport(source, m, rel))
    ensures result.Ok? ==> forall rel :: rel in result.value.files <==> IsPublished(source, m, rel)
    ensures result.Ok? ==> NamesInOrder(result.value.tasks) && PathsInOrder(result.value.files)
  {
    Plannable(source, m);
    var tasks := PublicTasks(m);
    for i := 0 to |tasks|
      invariant forall k :: 0 <= k < i ==> TaskExists(source, m, tasks[k])
    {
      if !TaskExists(source, m, tasks[i]) {
        assert tasks[i] in tasks;
        return Err(MissingTask(tasks[i]));
      }
    }
    if m.includes.None? {
      return Err(BadInclude);
    }
    if m.excludes.None? {
      return Err(BadExclude);
    }
    var rules := Rules(TrimSlashes(m.tasks), tasks, m.includes.value, m.excludes.value);
    var files := ListFiles(source, rules);
    forall rel
      ensures ToExport(source, m, rel) <==> IsWanted(source, rules, rel)
    {
      SameRules(source, m, rules, rel);
    }
    forall rel
      ensures ToExport(source, m, rel) <==> IsPublished(source, m, rel)
    {
      ExportIsPublished(source, m, rules, rel);
    }
    SortedNames(tasks);
    SortedPaths(files);
    result := Ok(Planned(tasks, files));
  }

  /** No exported file contains a forbidden text. */
  predicate Leaks(source: Tree, rel: Path, forbid: seq<string>) {
    IsFile(source, rel) && exists i :: 0 <= i < |forbid| && Contains(source[rel].content, forbid[i])
  }

  method CheckLeaks(source: Tree, files: seq<Path>, forbid: seq<string>) returns (leak: Option<RenderError>)
    requires forall rel :: rel in files ==> IsFile(source, rel)
    ensures leak.None? <==> forall rel :: rel in files ==> !Leaks(source, rel, forbid)
    ensures leak.Some? ==>
      && leak.value.Leak? && leak.value.rel in files && leak.value.needle in forbid
      && IsFile(source, leak.value.rel) && Contains(source[leak.value.rel].content, leak.value.needle)
  {
    for i := 0 to |files|
      invariant forall k :: 0 <= k < i ==> !Leaks(source, files[k], forbid)
    {
      assert files[i] in files;
      for j := 0 to |forbid|
        invariant forall k :: 0 <= k < j ==> !Contains(source[files[i]].content, forbid[k])
      {
        if Contains(source[files[i]].content, forbid[j]) {
          assert Leaks(source, files[i], forbid);
          return Some(Leak(files[i], forbid[j]));
        }
      }
    }
    leak := None;
  }
}
