/**
 * Why quiescence needs increasing creation times, one task per branch and no reopening: runs
 * in which the robot opens a request for a head that is merged already.
 */
module RobotCounterexamples {
  import opened Wrappers
  import opened Models
  import opened Selection
  import opened Branches
  import opened Database
  import opened Robot
  import opened RobotProtocol
  import opened RobotSafety
  import opened RobotQuiescence
  import opened RobotRuns

  const CONF := Config("project", 60, "robot")
  const BRANCH := "submits/task"
  const SAME_TASK := "submits/tasks/task"
  const DIFF := Changes(false, [Change("tasks/task/a", "tasks/task/a")])

  /** A request with a green pipeline and no notes. */
  function Green(branch: string, state: RequestState, createdAt: Time, sha: string): Request {
    Request(branch, state, createdAt, sha, "mergeable", "", 0, "", [], DIFF, [CiPipeline(9, Success, Some(20))], None)
  }

  lemma BranchNames()
    ensures IsSubmitBranch(BRANCH) && ParseTaskFromBranch(BRANCH) == "task"
    ensures IsSubmitBranch(SAME_TASK) && ParseTaskFromBranch(SAME_TASK) == "task" && SAME_TASK != BRANCH
  {
    TaskOfSubmitBranch("task");
    assert BRANCH == BRANCH_PREFIX + "task" && SAME_TASK == BRANCH_PREFIX + TASKS_PREFIX + "task";
    assert |SAME_TASK| != |BRANCH|;
  }

  function NowRow(iid: int, request: Request): MergeRequest {
    RowNow(CONF, Listed(iid, request))
  }

  /** Two requests of the one task, with a table that knows at most these. */
  ghost predicate TwoOfTask(g: GitLab, rows: map<int, MergeRequest>) {
    && g.requests.Keys == {1, 2} && rows.Keys <= {1, 2}
    && (forall iid :: iid in g.requests ==> OnTask(g.requests[iid]))
    && (forall iid :: iid in rows ==> KnownRow(CONF, iid, rows[iid], g))
  }

  ghost predicate OnTask(request: Request) {
    request.branch == BRANCH || request.branch == SAME_TASK
  }

  function RowsOf(g: GitLab): seq<MergeRequest>
    requires 1 in g.requests && 2 in g.requests
  {
    [NowRow(1, g.requests[1]), NowRow(2, g.requests[2])]
  }

  lemma BothSynced(g: GitLab, rows: map<int, MergeRequest>)
    requires TwoOfTask(g, rows)
    ensures SyncedRows(CONF, rows, [Listed(1, g.requests[1]), Listed(2, g.requests[2])])
         == map[1 := NowRow(1, g.requests[1]), 2 := NowRow(2, g.requests[2])]
  {
    BranchNames();
    var first, second := Listed(1, g.requests[1]), Listed(2, g.requests[2]);
    assert OnTask(g.requests[1]) && OnTask(g.requests[2]);
    assert [first, second][1..] == [second] && [second][1..] == [];
    var one := rows[1 := RowNow(CONF, first)];
    assert AfterUpsertMergeRequest(rows, RowNow(CONF, first)) == one;
    assert AfterUpsertMergeRequest(one, RowNow(CONF, second)) == map[1 := RowNow(CONF, first), 2 := RowNow(CONF, second)];
    assert SyncedRows(CONF, rows, [first, second]) == SyncedRows(CONF, one, [second]);
  }

  /** The robot's iteration, up to the turn of the branch with the given head. */
  lemma ComesTo(x: Stretch, found: seq<Branch>) returns (y: Stretch)
    requires x.Of(CONF) && x.Last().robot.Idle? && TwoOfTask(x.Last().gitlab, x.Last().rows)
    requires ListsBranches(found, x.Last().gitlab) && found != []
    ensures y.Of(CONF) && x.OnlyReads(y) && AtTurn(x.Last().gitlab, y.Last(), found) && |x.actions| < |y.actions|
  {
    var g := x.Last().gitlab;
    BranchNames();
    assert OnTask(g.requests[1]) && OnTask(g.requests[2]);
    BothSynced(g, x.Last().rows);
    y := Iterate(CONF, x, [Listed(1, g.requests[1]), Listed(2, g.requests[2])], found);
  }

  ghost predicate AtTurn(g: GitLab, s: State, found: seq<Branch>) {
    && s.gitlab == g && 1 in g.requests && 2 in g.requests
    && s.rows == map[1 := NowRow(1, g.requests[1]), 2 := NowRow(2, g.requests[2])]
    && s.robot.Updating? && s.robot.branches == Some(found) && s.robot.cutoff == g.now - 60
  }

  lemma ListsBoth(g: GitLab, s: State, found: seq<Branch>)
    requires AtTurn(g, s, found) && OnTask(g.requests[1]) && OnTask(g.requests[2])
    ensures ListsTask(RowsOf(g), s.rows, "task")
  {
    BranchNames();
    assert s.rows[1] == RowsOf(g)[0] && s.rows[2] == RowsOf(g)[1];
    assert s.rows[1] in s.rows.Values && s.rows[2] in s.rows.Values;
  }

  lemma Pair(a: MergeRequest, b: MergeRequest, state: RequestState)
    ensures Best([a, b], InState(state), Newer)
         == if b.state == state && (a.state != state || a.startedAt < b.startedAt) then Some(b)
            else if a.state == state then Some(a)
            else None
  {
    assert [a, b][..1] == [a] && [a][..0] == [];
    assert Best([a], InState(state), Newer) == if a.state == state then Some(a) else None;
  }

  lemma NoNotes(a: MergeRequest, b: MergeRequest)
    requires a.lastNoteCreatedAt == b.lastNoteCreatedAt == ZERO_TIME
    ensures LastNote([a, b]) == ZERO_TIME
  {
    assert [a, b][..1] == [a] && [a][..0] == [];
    assert LastNote([]) == ZERO_TIME;
    assert LastNote([a]) == ZERO_TIME;
  }

  /** Both are merged, and the one the robot takes for the last merge is not the head. */
  ghost predicate LooksMoved(g: GitLab, head: string) {
    && 1 in g.requests && 2 in g.requests && g.requests[1].state == Merged && g.requests[2].state == Merged
    && var last := if g.requests[1].createdAt < g.requests[2].createdAt then g.requests[2] else g.requests[1];
       head != "" && last.sha != "" && last.sha != head
  }

  /** Then it opens a request. */
  lemma Opens(x: Stretch, g: GitLab, found: seq<Branch>) returns (y: Stretch)
    requires x.Of(CONF) && AtTurn(g, x.Last(), found) && OnTask(g.requests[1]) && OnTask(g.requests[2]) && g.requests.Keys == {1, 2}
    requires found != [] && found[0].name == BRANCH && BRANCH in g.branches && LooksMoved(g, found[0].head)
    ensures y.Of(CONF) && x.StartOf(y) && |y.actions| == |x.actions| + 1 && y.run[|x.actions|] == x.Last()
    ensures Creates(CONF, x.Last(), y.actions[|x.actions|]) && WritesTo(CONF, x.Last(), y.actions[|x.actions|], BRANCH)
    ensures 3 in y.Last().gitlab.requests && y.Last().gitlab.requests == g.requests[3 := NewRequest(g, BRANCH, DIFF)]
  {
    var s, rows := x.Last(), RowsOf(g);
    BranchNames();
    ListsBoth(g, s, found);
    Pair(rows[0], rows[1], Opened);
    Pair(rows[0], rows[1], Merged);
    assert DecisionOf(CONF, s.robot, rows) == Create;
    var t := s.(gitlab := g.Change(3, NewRequest(g, BRANCH, DIFF)), robot := s.robot.(branches := Some(found[1..])), clock := s.clock + 1);
    ThenStep(CONF, x, UpdateBranch(rows, true, 3, DIFF), t);
    y := x.Then(UpdateBranch(rows, true, 3, DIFF), t);
  }

  ghost predicate NothingHappens(actions: seq<Action>, from: nat) {
    forall i :: from <= i < |actions| ==> !actions[i].Happens?
  }

  lemma StillNothing(x: Stretch, y: Stretch, z: Stretch, from: nat)
    requires NothingHappens(x.actions, from) && x.OnlyReads(y) && y.StartOf(z) && |z.actions| == |y.actions| + 1
    requires !z.actions[|y.actions|].Happens?
    ensures NothingHappens(z.actions, from)
  {
    forall i | from <= i < |z.actions|
      ensures !z.actions[i].Happens?
    {
      assert i < |y.actions| ==> z.actions[i] == y.actions[i];
      assert i < |x.actions| ==> y.actions[i] == x.actions[i];
    }
  }

  /** At step `at` of a run in which nothing happens outside the robot writes to the settled branch. */
  ghost predicate WritesToSettled(run: seq<State>, actions: seq<Action>, branch: string, at: nat) {
    && IsRun(CONF, run, actions) && run[0].robot.Idle? && NothingHappens(actions, 0)
    && at < |actions| && Phase(run[at].gitlab, branch) == 0 && WritesTo(CONF, run[at], actions[at], branch)
  }

  /** A gitlab in which the branch is settled and looks moved. */
  ghost predicate Misleads(g: GitLab, found: seq<Branch>) {
    && Sane(g) && g.requests.Keys == {1, 2} && OnTask(g.requests[1]) && OnTask(g.requests[2])
    && ListsBranches(found, g) && found != [] && found[0].name == BRANCH
    && LooksMoved(g, found[0].head) && Phase(g, BRANCH) == 0
  }

  lemma WritesAnyway(g: GitLab, found: seq<Branch>) returns (x: Stretch, at: nat)
    requires Misleads(g, found)
    ensures WritesToSettled(x.run, x.actions, BRANCH, at) && x.run[0].gitlab == g
  {
    var start := Stretch([State(g, map[], map[], Idle, 0)], []);
    var y := ComesTo(start, found);
    x := Opens(y, g, found);
    at := |y.actions|;
    StillNothing(start, y, x, 0);
  }

  const EQUAL_TIMES := GitLab(100, map[BRANCH := "b"], map[1 := Green(BRANCH, Merged, 5, "a"), 2 := Green(BRANCH, Merged, 5, "b")])

  const SHARED_TASK :=
    GitLab(100, map[BRANCH := "a", SAME_TASK := "b"], map[1 := Green(BRANCH, Merged, 5, "a"), 2 := Green(SAME_TASK, Merged, 6, "b")])

  lemma EqualTimesMislead()
    ensures Misleads(EQUAL_TIMES, [Branch(BRANCH, "b")])
  {
    BranchNames();
    var g := EQUAL_TIMES;
    assert NewestMerged(g, 2, BRANCH) && Covers(g.requests[2].sha, HeadOf(g, BRANCH));
  }

  lemma SharedTaskMisleads()
    ensures Misleads(SHARED_TASK, [Branch(BRANCH, "a"), Branch(SAME_TASK, "b")])
  {
    BranchNames();
    var g := SHARED_TASK;
    assert NewestMerged(g, 1, BRANCH) && Covers(g.requests[1].sha, HeadOf(g, BRANCH));
  }

  /** Two requests of one branch created at one instant: the older head keeps winning. */
  lemma EqualTimesCreateAgain() returns (x: Stretch, at: nat)
    ensures WritesToSettled(x.run, x.actions, BRANCH, at) && x.run[0].gitlab == EQUAL_TIMES
  {
    EqualTimesMislead();
    x, at := WritesAnyway(EQUAL_TIMES, [Branch(BRANCH, "b")]);
  }

  /** Two branches of one task, both merged: the one merged first looks moved past its merge. */
  lemma SharedTaskCreatesAgain() returns (x: Stretch, at: nat)
    ensures WritesToSettled(x.run, x.actions, BRANCH, at) && x.run[0].gitlab == SHARED_TASK
  {
    SharedTaskMisleads();
    x, at := WritesAnyway(SHARED_TASK, [Branch(BRANCH, "a"), Branch(SAME_TASK, "b")]);
  }

  // Reopening

  const FOUND := [Branch(BRANCH, "c")]
  const REOPENED := Green(BRANCH, Opened, 5, "c")
  const CLOSED_LAB := GitLab(100, map[BRANCH := "c"], map[1 := Green(BRANCH, Closed, 5, "a"), 2 := Green(BRANCH, Merged, 6, "b")])
  const REOPENED_LAB := CLOSED_LAB.Change(1, REOPENED)
  const MERGED_LAB := REOPENED_LAB.Change(1, MergedRequest(REOPENED, "robot"))

  /** Before the reopening everything is in order. */
  lemma ClosedIsOrderly()
    ensures Orderly(CLOSED_LAB)
  {
    assert forall branch :: Submitted(CLOSED_LAB, branch) ==> branch == BRANCH;
  }

  lemma ReopeningIsAllowed()
    ensures Sane(CLOSED_LAB) && React(CLOSED_LAB, Reopen(1)) == REOPENED_LAB
  {
  }

  /** After the merge a request is called for again. */
  lemma ReopenedPhases()
    ensures Phase(REOPENED_LAB, BRANCH) == 1 && Phase(MERGED_LAB, BRANCH) == 2
  {
    var g := MERGED_LAB;
    assert REOPENED_LAB.requests[1].state == Opened;
    assert OnBranch(g, 2, BRANCH) && g.requests[2].state == Merged;
    forall iid | NewestMerged(g, iid, BRANCH)
      ensures iid == 2
    {
    }
  }

  lemma Reopens() returns (x: Stretch)
    ensures x.Of(CONF) && |x.actions| == 1 && x.actions[0] == Happens(Reopen(1))
    ensures Init(CONF, x.run[0]) && x.run[0].gitlab == CLOSED_LAB
    ensures x.Last().robot.Idle? && x.Last().rows == map[] && x.Last().gitlab == REOPENED_LAB
  {
    ReopeningIsAllowed();
    var s := State(CLOSED_LAB, map[], map[], Idle, 0);
    ThenStep(CONF, Stretch([s], []), Happens(Reopen(1)), s.(gitlab := REOPENED_LAB, clock := 1));
    x := Stretch([s], []).Then(Happens(Reopen(1)), s.(gitlab := REOPENED_LAB, clock := 1));
  }

  lemma ReopensAndSyncs() returns (x: Stretch)
    ensures x.Of(CONF) && Init(CONF, x.run[0]) && x.run[0].gitlab == CLOSED_LAB && AtTurn(REOPENED_LAB, x.Last(), FOUND)
    ensures 1 < |x.actions| && x.actions[0] == Happens(Reopen(1)) && NothingHappens(x.actions, 1)
  {
    var y := Reopens();
    x := ComesTo(y, FOUND);
    assert x.run[0] == y.run[0] && x.actions[0] == y.actions[0];
  }

  lemma AcceptsReopened(robot: Control)
    requires robot.Updating? && robot.branches == Some(FOUND) && robot.cutoff == 40
    ensures DecisionOf(CONF, robot, RowsOf(REOPENED_LAB)) == Accept(1, "c")
  {
    BranchNames();
    assert TASKS_PREFIX + "task" + "/" == "tasks/task/";
    assert "tasks/task/a" == "tasks/task/" + "a";
    var rows := RowsOf(REOPENED_LAB);
    Pair(rows[0], rows[1], Opened);
    NoNotes(rows[0], rows[1]);
  }

  /** The robot merges the reopened request and ends the iteration. */
  lemma MergesReopened(x: Stretch) returns (y: Stretch)
    requires x.Of(CONF) && AtTurn(REOPENED_LAB, x.Last(), FOUND)
    ensures y.Of(CONF) && x.StartOf(y) && |y.actions| == |x.actions| + 2 && y.actions[|x.actions| + 1] == GiveUp
    ensures RobotMerges(CONF, y.run[|x.actions|], y.actions[|x.actions|], y.run[|x.actions| + 1], 1)
    ensures WritesTo(CONF, y.run[|x.actions|], y.actions[|x.actions|], BRANCH)
    ensures y.run[|x.actions|].gitlab == REOPENED_LAB && y.run[|x.actions| + 1].gitlab == MERGED_LAB
    ensures y.Last().robot.Idle? && y.Last().gitlab == MERGED_LAB && y.Last().rows == x.Last().rows
  {
    var s, rows := x.Last(), RowsOf(REOPENED_LAB);
    BranchNames();
    ListsBoth(REOPENED_LAB, s, FOUND);
    AcceptsReopened(s.robot);
    var t := s.(gitlab := MERGED_LAB, robot := s.robot.(branches := Some(FOUND[1..])), clock := s.clock + 1);
    var u := t.(robot := Idle, clock := t.clock + 1);
    ThenStep(CONF, x, UpdateBranch(rows, true, 0, DIFF), t);
    ThenStep(CONF, x.Then(UpdateBranch(rows, true, 0, DIFF), t), GiveUp, u);
    y := x.Then(UpdateBranch(rows, true, 0, DIFF), t).Then(GiveUp, u);
  }

  lemma RowsStillKnown(s: State)
    requires s.gitlab == MERGED_LAB && s.rows == map[1 := NowRow(1, REOPENED), 2 := NowRow(2, MERGED_LAB.requests[2])]
    ensures TwoOfTask(s.gitlab, s.rows)
  {
    BranchNames();
  }

  lemma FirstIteration() returns (x: Stretch, at: nat)
    ensures x.Of(CONF) && Init(CONF, x.run[0]) && x.run[0].gitlab == CLOSED_LAB
    ensures 0 < at && |x.actions| == at + 2 && x.actions[0] == Happens(Reopen(1)) && NothingHappens(x.actions, 1)
    ensures RobotMerges(CONF, x.run[at], x.actions[at], x.run[at + 1], 1) && WritesTo(CONF, x.run[at], x.actions[at], BRANCH)
    ensures x.run[at].gitlab == REOPENED_LAB && x.run[at + 1].gitlab == MERGED_LAB
    ensures x.Last().gitlab == MERGED_LAB && x.Last().robot.Idle? && TwoOfTask(MERGED_LAB, x.Last().rows)
  {
    var y := ReopensAndSyncs();
    x := MergesReopened(y);
    at := |y.actions|;
    RowsStillKnown(x.Last());
    NothingMore(y, x, 1);
  }

  lemma NothingMore(x: Stretch, y: Stretch, from: nat)
    requires NothingHappens(x.actions, from) && x.StartOf(y) && x.run != [] && x.actions != []
    requires forall i :: |x.actions| <= i < |y.actions| ==> !y.actions[i].Happens?
    ensures NothingHappens(y.actions, from) && y.run[0] == x.run[0] && y.actions[0] == x.actions[0]
  {
    forall i | from <= i < |y.actions|
      ensures !y.actions[i].Happens?
    {
      assert i < |x.actions| ==> y.actions[i] == x.actions[i];
    }
  }

  lemma SecondIteration(x: Stretch) returns (y: Stretch)
    requires x.Of(CONF) && x.Last().gitlab == MERGED_LAB && x.Last().robot.Idle? && TwoOfTask(MERGED_LAB, x.Last().rows)
    requires NothingHappens(x.actions, 1)
    ensures y.Of(CONF) && x.StartOf(y) && |x.actions| < |y.actions| && NothingHappens(y.actions, 1)
    ensures var last := |y.actions| - 1; Creates(CONF, y.run[last], y.actions[last]) && WritesTo(CONF, y.run[last], y.actions[last], BRANCH)
    ensures 3 in y.Last().gitlab.requests && y.Last().gitlab.requests == MERGED_LAB.requests[3 := NewRequest(MERGED_LAB, BRANCH, DIFF)]
  {
    var z := ComesTo(x, FOUND);
    y := Opens(z, MERGED_LAB, FOUND);
    StillNothing(x, z, y, 1);
  }

  /**
   * A request older than the last merge is reopened and merged at the head. Its creation time
   * keeps it from being the last merge, so the robot opens another request for the same head:
   * a merge and then a creation, where a quiet run has at most the merge.
   */
  lemma ReopenedCreatesAgain() returns (x: Stretch, at: nat)
    ensures IsRun(CONF, x.run, x.actions) && Orderly(x.run[0].gitlab) && 0 < at && at + 1 < |x.actions|
    ensures x.actions[0] == Happens(Reopen(1)) && NothingHappens(x.actions, 1)
    ensures RobotMerges(CONF, x.run[at], x.actions[at], x.run[at + 1], 1) && WritesTo(CONF, x.run[at], x.actions[at], BRANCH)
    ensures Phase(x.run[at].gitlab, BRANCH) == 1 && Phase(x.run[at + 1].gitlab, BRANCH) == 2
    ensures var last := |x.actions| - 1; Creates(CONF, x.run[last], x.actions[last]) && WritesTo(CONF, x.run[last], x.actions[last], BRANCH)
    ensures var g := x.Last().gitlab;
            1 in g.requests && 3 in g.requests && g.requests[1].mergedSha == Some(g.requests[3].sha)
  {
    ClosedIsOrderly();
    ReopenedPhases();
    var y;
    y, at := FirstIteration();
    x := SecondIteration(y);
    assert x.run[0] == y.run[0] && x.actions[0] == y.actions[0];
    assert x.run[at] == y.run[at] && x.run[at + 1] == y.run[at + 1] && x.actions[at] == y.actions[at];
  }
}
