/** Names of branches and of merge request refs: internal/gitlab/branch.go and internal/database/database.go. */
module Branches {
  import opened Strings

  const BRANCH_PREFIX := "submits/"
  const TASKS_PREFIX := "tasks/"

  function TrimPrefix(s: string, prefix: string): string {
    if prefix <= s then s[|prefix|..] else s
  }

  function ParseTaskFromBranch(branch: string): string {
    TrimPrefix(TrimPrefix(branch, BRANCH_PREFIX), TASKS_PREFIX)
  }

  predicate IsSubmitBranch(name: string) {
    HasPrefix(name, BRANCH_PREFIX)
  }

  /** The task of a submit branch is what follows the prefix, with or without `tasks/`. */
  lemma TaskOfSubmitBranch(task: string)
    requires !HasPrefix(task, TASKS_PREFIX)
    ensures IsSubmitBranch(BRANCH_PREFIX + task) && ParseTaskFromBranch(BRANCH_PREFIX + task) == task
    ensures IsSubmitBranch(BRANCH_PREFIX + TASKS_PREFIX + task) && ParseTaskFromBranch(BRANCH_PREFIX + TASKS_PREFIX + task) == task
  {
    assert (BRANCH_PREFIX + task)[|BRANCH_PREFIX|..] == task;
    assert (BRANCH_PREFIX + TASKS_PREFIX + task)[|BRANCH_PREFIX|..] == TASKS_PREFIX + task;
    assert (TASKS_PREFIX + task)[|TASKS_PREFIX|..] == task;
  }

  /** Two branches share a task exactly when they differ by one `tasks/` alone. */
  lemma SharedTask(a: string, b: string)
    requires IsSubmitBranch(a) && IsSubmitBranch(b)
    ensures ParseTaskFromBranch(a) == ParseTaskFromBranch(b) <==>
              var x, y := a[|BRANCH_PREFIX|..], b[|BRANCH_PREFIX|..];
              || x == y
              || (x == TASKS_PREFIX + y && !HasPrefix(y, TASKS_PREFIX))
              || (y == TASKS_PREFIX + x && !HasPrefix(x, TASKS_PREFIX))
  {
    var x, y := a[|BRANCH_PREFIX|..], b[|BRANCH_PREFIX|..];
    assert HasPrefix(x, TASKS_PREFIX) ==> x == TASKS_PREFIX + TrimPrefix(x, TASKS_PREFIX);
    assert HasPrefix(y, TASKS_PREFIX) ==> y == TASKS_PREFIX + TrimPrefix(y, TASKS_PREFIX);
  }
}
