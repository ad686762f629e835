/**
 * The protocol is not empty, and the bound of quiescence is reached: a run in which nobody but
 * the robot opens or merges anything, and the robot opens a request, CI turns it green and the
 * robot merges it.
 */
module RobotWitness {
  import opened Wrappers
  import opened Models
  import opened Selection
  import opened Branches
  import opened Robot
  import opened RobotProtocol
  import opened RobotSafety
  import opened RobotQuiescence
  import opened RobotRuns

  const CONF := Config("project", 60, "robot")
  const BRANCH := "submits/task"
  const FOUND := [Branch(BRANCH, "a")]
  const DIFF := Changes(false, [Change("tasks/task/a", "tasks/task/a")])
  const LAB := GitLab(100, map[BRANCH := "a"], map[])
  const OPENED := Request(BRANCH, Opened, 100, "a", "checking", "", 0, "", [], DIFF, [], None)
  const GREEN := OPENED.(pipelines := [CiPipeline(9, Success, Some(100))], detailedStatus := "mergeable")
  const GREEN_LAB := GitLab(200, map[BRANCH := "a"], map[1 := GREEN])
  const ROW := MergeRequest(1, 1, "a", "project", "task", Opened, 0, 100, CAN_BE_MERGED, "", false, 0, 9, Success, 100, false, false)

  lemma BranchIsSubmit()
    ensures IsSubmitBranch(BRANCH) && ParseTaskFromBranch(BRANCH) == "task"
  {
    TaskOfSubmitBranch("task");
    assert BRANCH == BRANCH_PREFIX + "task";
  }

  lemma GreenRow()
    ensures RowNow(CONF, Listed(1, GREEN)) == ROW
  {
    BranchIsSubmit();
    assert TASKS_PREFIX + "task" + "/" == "tasks/task/";
    assert "tasks/task/a" == "tasks/task/" + "a";
  }

  /** Only the one branch, and nobody steers. */
  ghost predicate Tame(x: Stretch) {
    && x.Of(CONF) && Init(CONF, x.run[0]) && OneBranch(x.run[0].gitlab)
    && (forall i :: 0 <= i < |x.actions| ==> TameStep(x, i))
  }

  ghost predicate TameStep(x: Stretch, i: nat)
    requires i < |x.actions| < |x.run|
  {
    TameAction(x.run[i], x.actions[i]) && OneBranch(x.run[i + 1].gitlab)
  }

  ghost predicate OneBranch(g: GitLab) {
    g.branches.Keys == {BRANCH} && forall iid :: iid in g.requests ==> g.requests[iid].branch == BRANCH
  }

  ghost predicate TameAction(s: State, action: Action) {
    Careful(CONF, s, action) && (action.Happens? ==> !Steers(action.event))
  }

  lemma TameThen(x: Stretch, action: Action, t: State)
    requires Tame(x) && Next(CONF, x.Last(), action, t) && OneBranch(t.gitlab) && TameAction(x.Last(), action)
    ensures Tame(x.Then(action, t)) && x.StartOf(x.Then(action, t))
  {
    ThenStep(CONF, x, action, t);
    var y := x.Then(action, t);
    forall i | 0 <= i < |y.actions|
      ensures TameStep(y, i)
    {
      assert i < |x.actions| ==> TameStep(x, i);
    }
  }

  lemma TameReads(x: Stretch, y: Stretch)
    requires Tame(x) && x.OnlyReads(y) && y.Of(CONF)
    ensures Tame(y)
  {
    TameLast(x);
    forall i | 0 <= i < |y.actions|
      ensures TameStep(y, i)
    {
      TameRead(x, y, i);
    }
  }

  lemma TameLast(x: Stretch)
    requires Tame(x)
    ensures OneBranch(x.Last().gitlab)
  {
    if x.actions != [] {
      assert TameStep(x, |x.actions| - 1);
    }
  }

  lemma TameRead(x: Stretch, y: Stretch, i: nat)
    requires Tame(x) && x.OnlyReads(y) && i < |y.actions| && OneBranch(x.Last().gitlab)
    ensures TameStep(y, i)
  {
    if i < |x.actions| {
      assert TameStep(x, i) && y.run[i] == x.run[i] && y.run[i + 1] == x.run[i + 1];
    }
  }

  lemma TameIsQuiet(x: Stretch)
    requires Tame(x) && Orderly(x.run[0].gitlab)
    ensures QuietRun(CONF, x.run, x.actions, 0)
  {
    forall i | 0 <= i < |x.run|
      ensures OneBranch(x.run[i].gitlab)
    {
      assert i > 0 ==> TameStep(x, i - 1);
    }
    forall i, j, a, b | 0 <= i < |x.run| && 0 <= j < |x.run| && SameTask(x.run[i].gitlab, a, x.run[j].gitlab, b)
      ensures a == b
    {
      assert a == BRANCH && b == BRANCH;
    }
    forall i | 0 <= i < |x.actions|
      ensures Careful(CONF, x.run[i], x.actions[i]) && (x.actions[i].Happens? ==> !Steers(x.actions[i].event))
    {
      assert TameStep(x, i);
    }
  }

  /** The branch is new: the robot opens a request for it and the iteration ends. */
  lemma Opens() returns (x: Stretch, at: nat)
    ensures Tame(x) && x.run[0].gitlab == LAB && x.run[0].robot.Idle? && |x.actions| == at + 2
    ensures Creates(CONF, x.run[at], x.actions[at]) && x.actions[at].iid == 1
    ensures x.Last().robot.Idle? && x.Last().rows == map[] && x.Last().gitlab == LAB.Change(1, OPENED)
  {
    BranchIsSubmit();
    var s := Stretch([State(LAB, map[], map[], Idle, 0)], []);
    var y := Iterate(CONF, s, [], FOUND);
    TameReads(s, y);
    var t := y.Last();
    var action := UpdateBranch([], true, 1, DIFF);
    var u := t.(gitlab := LAB.Change(1, OPENED), robot := t.robot.(branches := Some(FOUND[1..])), clock := t.clock + 1);
    assert Best([], InState(Opened), Newer) == None;
    TameThen(y, action, u);
    var v := u.(robot := Idle, clock := u.clock + 1);
    TameThen(y.Then(action, u), GiveUp, v);
    x, at := y.Then(action, u).Then(GiveUp, v), |y.actions|;
  }

  lemma TameEvent(x: Stretch, event: Event) returns (y: Stretch)
    requires Tame(x) && !Steers(event) && OneBranch(React(x.Last().gitlab, event))
    ensures Tame(y) && x.StartOf(y)
    ensures y.Last() == x.Last().(gitlab := React(x.Last().gitlab, event), clock := y.Last().clock)
  {
    var t := x.Last().(gitlab := React(x.Last().gitlab, event), clock := x.Last().clock + 1);
    TameThen(x, Happens(event), t);
    y := x.Then(Happens(event), t);
  }

  lemma EventsTurnGreen()
    ensures var g := React(LAB.Change(1, OPENED), StartPipeline(1, 9, Success));
            && OneBranch(g) && OneBranch(React(g, RecheckMergeStatus(1, "mergeable", "")))
            && React(React(g, RecheckMergeStatus(1, "mergeable", "")), Wait(100)) == GREEN_LAB
  {
    assert [CiPipeline(9, Success, Some(100))] + [] == GREEN.pipelines;
    var h := React(React(LAB.Change(1, OPENED), StartPipeline(1, 9, Success)), RecheckMergeStatus(1, "mergeable", ""));
    assert h.requests == GREEN_LAB.requests;
  }

  /** CI and gitlab report and the review period passes. */
  lemma TurnsGreen(x: Stretch) returns (y: Stretch)
    requires Tame(x) && x.Last().robot.Idle? && x.Last().rows == map[] && x.Last().gitlab == LAB.Change(1, OPENED)
    ensures Tame(y) && x.StartOf(y) && y.Last().robot.Idle? && y.Last().rows == map[] && y.Last().gitlab == GREEN_LAB
  {
    EventsTurnGreen();
    y := TameEvent(x, StartPipeline(1, 9, Success));
    y := TameEvent(y, RecheckMergeStatus(1, "mergeable", ""));
    y := TameEvent(y, Wait(100));
  }

  lemma Merges(x: Stretch) returns (y: Stretch)
    requires Tame(x) && x.Last().robot.Idle? && x.Last().rows == map[] && x.Last().gitlab == GREEN_LAB
    ensures Tame(y) && x.StartOf(y) && |x.actions| < |y.actions| && y.run[|y.run| - 2].gitlab == GREEN_LAB
    ensures RobotMerges(CONF, y.run[|y.run| - 2], y.actions[|y.actions| - 1], y.Last(), 1)
  {
    var z := Syncs(x);
    var s := z.Last();
    var t := s.(
      gitlab := GREEN_LAB.Change(1, MergedRequest(GREEN, "robot")), robot := s.robot.(branches := Some(FOUND[1..])), clock := s.clock + 1);
    MergesRow(s, t);
    TameThen(z, UpdateBranch([ROW], true, 0, DIFF), t);
    y := z.Then(UpdateBranch([ROW], true, 0, DIFF), t);
  }

  lemma Syncs(x: Stretch) returns (y: Stretch)
    requires Tame(x) && x.Last().robot.Idle? && x.Last().rows == map[] && x.Last().gitlab == GREEN_LAB
    ensures Tame(y) && x.StartOf(y) && |x.actions| < |y.actions|
    ensures var s := y.Last(); s.gitlab == GREEN_LAB && s.robot.Updating? && s.robot.branches == Some(FOUND) && s.robot.cutoff == 140 && s.rows == map[1 := ROW]
  {
    BranchIsSubmit();
    var listing := [Listed(1, GREEN)];
    y := Iterate(CONF, x, listing, FOUND);
    TameReads(x, y);
    GreenRow();
    assert listing[1..] == [];
  }

  lemma AcceptsRow(robot: Control)
    requires robot.Updating? && robot.branches == Some(FOUND) && robot.cutoff == 140
    ensures DecisionOf(CONF, robot, [ROW]) == Accept(1, "a")
  {
    assert [ROW][..0] == [];
    assert Best([], InState(Opened), Newer) == None && Best([ROW], InState(Opened), Newer) == Some(ROW);
    assert LastNote([ROW]) == 0;
  }

  lemma MergesRow(s: State, t: State)
    requires s.gitlab == GREEN_LAB && s.robot.Updating? && s.robot.branches == Some(FOUND) && s.robot.cutoff == 140 && s.rows == map[1 := ROW]
    requires t == s.(
      gitlab := GREEN_LAB.Change(1, MergedRequest(GREEN, "robot")), robot := s.robot.(branches := Some(FOUND[1..])), clock := s.clock + 1)
    ensures RobotMerges(CONF, s, UpdateBranch([ROW], true, 0, DIFF), t, 1)
    ensures TameAction(s, UpdateBranch([ROW], true, 0, DIFF)) && OneBranch(t.gitlab)
  {
    BranchIsSubmit();
    AcceptsRow(s.robot);
    assert s.rows[1] == ROW && ROW in s.rows.Values;
  }

  /** At step `at` the robot creates a request and with the last step merges it: two writes, as many as there can be. */
  lemma RobotCanMerge() returns (x: Stretch, at: nat)
    ensures QuietRun(CONF, x.run, x.actions, 0) && x.run[0].robot.Idle? && at + 1 < |x.actions|
    ensures Creates(CONF, x.run[at], x.actions[at]) && x.actions[at].iid == 1
    ensures RobotMerges(CONF, x.run[|x.run| - 2], x.actions[|x.actions| - 1], x.Last(), 1)
    ensures Writes(CONF, x.run, x.actions, BRANCH, 0, |x.actions|) == 2
  {
    var y;
    y, at := Opens();
    var z := TurnsGreen(y);
    x := Merges(z);
    BothStarts(y, z, x);
    EmptyIsOrderly(LAB);
    TameIsQuiet(x);
    TwoWrites(x);
  }

  lemma BothStarts(x: Stretch, y: Stretch, z: Stretch)
    requires x.StartOf(y) && y.StartOf(z)
    ensures x.StartOf(z)
    ensures forall i :: 0 <= i < |x.run| ==> z.run[i] == x.run[i]
    ensures forall i :: 0 <= i < |x.actions| ==> z.actions[i] == x.actions[i]
  {
  }

  lemma TwoWrites(x: Stretch)
    requires QuietRun(CONF, x.run, x.actions, 0) && x.run[0].robot.Idle? && x.run[0].gitlab == LAB && x.actions != []
    requires RobotMerges(CONF, x.run[|x.run| - 2], x.actions[|x.actions| - 1], x.Last(), 1) && x.run[|x.run| - 2].gitlab == GREEN_LAB
    ensures Writes(CONF, x.run, x.actions, BRANCH, 0, |x.actions|) == 2
  {
    TwoPhases(GREEN_LAB.Change(1, MergedRequest(GREEN, "robot")));
    QuietRobot(CONF, x.run, x.actions, BRANCH, 0, |x.actions|);
  }

  lemma TwoPhases(h: GitLab)
    requires h == GREEN_LAB.Change(1, MergedRequest(GREEN, "robot"))
    ensures Phase(LAB, BRANCH) == 2 && Phase(h, BRANCH) == 0
  {
    assert NewestMerged(h, 1, BRANCH) && Covers(h.requests[1].sha, HeadOf(h, BRANCH));
  }
}
