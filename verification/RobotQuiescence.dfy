/**
 * Left alone, the robot writes at most twice per branch and then stays quiet: from any step
 * of a well-behaved run on, also in the middle of an iteration.
 */
module RobotQuiescence {
  import opened Wrappers
  import opened Models
  import opened Selection
  import opened Branches
  import opened Database
  import opened Robot
  import opened RobotProtocol
  import opened RobotSafety

  ghost predicate OnBranch(g: GitLab, iid: int, branch: string) {
    iid in g.requests && g.requests[iid].branch == branch
  }

  ghost predicate Submitted(g: GitLab, branch: string) {
    IsSubmitBranch(branch) && (branch in g.branches || exists iid :: OnBranch(g, iid, branch))
  }

  /**
   * What a well-behaved history leads to: an open request is the only one of its branch, is
   * the newest and follows the head, and tasks name branches.
   */
  ghost predicate Orderly(g: GitLab) {
    && (forall a, b, branch :: OnBranch(g, a, branch) && OnBranch(g, b, branch) && a != b ==>
          g.requests[a].createdAt != g.requests[b].createdAt
          && (g.requests[a].state == Opened ==> g.requests[b].state != Opened && g.requests[b].createdAt < g.requests[a].createdAt))
    && (forall iid :: iid in g.requests && g.requests[iid].state == Opened && g.requests[iid].branch in g.branches ==>
          g.requests[iid].sha == g.branches[g.requests[iid].branch])
    && OneTaskEach(g)
  }

  ghost predicate OneTaskEach(g: GitLab) {
    forall a, b :: Submitted(g, a) && Submitted(g, b) && ParseTaskFromBranch(a) == ParseTaskFromBranch(b) ==> a == b
  }

  function HeadOf(g: GitLab, branch: string): string {
    if branch in g.branches then g.branches[branch] else ""
  }

  /** The newest merged request of the branch covers the head. */
  ghost predicate Settled(g: GitLab, branch: string) {
    exists iid :: NewestMerged(g, iid, branch) && Covers(g.requests[iid].sha, HeadOf(g, branch))
  }

  ghost predicate Covers(sha: string, head: string) {
    head == "" || sha == "" || head == sha
  }

  ghost predicate NewestMerged(g: GitLab, iid: int, branch: string) {
    && OnBranch(g, iid, branch) && g.requests[iid].state == Merged
    && forall other :: OnBranch(g, other, branch) && g.requests[other].state == Merged ==> g.requests[other].createdAt <= g.requests[iid].createdAt
  }

  /** Writes still to come at most: create and merge, merge, or none. */
  ghost function Phase(g: GitLab, branch: string): nat {
    if g.HasOpen(branch) then 1 else if Settled(g, branch) then 0 else 2
  }

  ghost predicate TasksNameBranches(run: seq<State>) {
    forall i, j, a, b :: 0 <= i < |run| && 0 <= j < |run| && SameTask(run[i].gitlab, a, run[j].gitlab, b) ==> a == b
  }

  ghost predicate SameTask(g: GitLab, a: string, h: GitLab, b: string) {
    Submitted(g, a) && Submitted(h, b) && ParseTaskFromBranch(a) == ParseTaskFromBranch(b)
  }

  /** Nobody reopens a request, and a request opened by hand is the newest of its branch. */
  ghost predicate CarefulEvent(g: GitLab, event: Event) {
    !event.Reopen? && (event.OpenByHand? ==> NewestYet(g, event.branch))
  }

  ghost predicate Careful(conf: Config, s: State, action: Action) {
    && (action.Happens? ==> CarefulEvent(s.gitlab, action.event))
    && (Creates(conf, s, action) ==> NewestYet(s.gitlab, s.robot.branches.value[0].name))
  }

  /** Requests are created at increasing times and not reopened, and tasks name branches. */
  ghost predicate WellBehaved(conf: Config, run: seq<State>, actions: seq<Action>) {
    && IsRun(conf, run, actions) && Orderly(run[0].gitlab) && TasksNameBranches(run)
    && forall i :: 0 <= i < |actions| ==> Careful(conf, run[i], actions[i])
  }

  /**
   * Branches are pushed or deleted and requests opened, closed, reopened or merged by hand.
   * Everything else goes on in a quiet run: time, CI, comments, resolutions, gitlab's checks.
   */
  predicate Steers(event: Event) {
    event.Push? || event.DeleteBranch? || event.OpenByHand? || event.Close? || event.Reopen? || event.MergeByHand?
  }

  /** From step k on nobody but the robot moves branches or opens and closes requests. */
  ghost predicate QuietRun(conf: Config, run: seq<State>, actions: seq<Action>, k: nat) {
    && WellBehaved(conf, run, actions)
    && forall i :: k <= i < |actions| ==> (actions[i].Happens? ==> !Steers(actions[i].event))
  }

  ghost predicate Creates(conf: Config, s: State, action: Action) {
    action.UpdateBranch? && action.granted && s.robot.Updating? && s.robot.branches.Some? && s.robot.branches.value != []
    && DecisionOf(conf, s.robot, action.taskRows).Create?
  }

  ghost predicate NewestYet(g: GitLab, branch: string) {
    forall iid :: OnBranch(g, iid, branch) ==> g.requests[iid].createdAt < g.now
  }

  /** What decides about writes: not the discussion, the pipelines or the changes. */
  predicate SameShape(a: Request, b: Request) {
    a.branch == b.branch && a.state == b.state && a.sha == b.sha && a.createdAt == b.createdAt
  }

  /** Both gitlabs have the same requests of the branch, in the same states, at the same commits. */
  ghost predicate SameOnBranch(g: GitLab, h: GitLab, branch: string) {
    forall iid ::
      (OnBranch(g, iid, branch) <==> OnBranch(h, iid, branch)) && (OnBranch(g, iid, branch) ==> SameShape(g.requests[iid], h.requests[iid]))
  }

  ghost predicate SameElsewhere(g: GitLab, h: GitLab, branch: string) {
    forall other :: other != branch ==> SameOnBranch(g, h, other)
  }

  ghost predicate SameEverywhere(g: GitLab, h: GitLab) {
    forall branch :: SameOnBranch(g, h, branch)
  }

  /** The branch still waits for its turn in the current update. */
  ghost predicate Waits(robot: Control, branch: string) {
    robot.Updating? ==> robot.branches.Some? ==> exists i :: 0 <= i < |robot.branches.value| && robot.branches.value[i].name == branch
  }

  /** In a quiet run a branch looks as it did at the listing until its turn comes. */
  ghost predicate Undisturbed(run: seq<State>, i: nat)
    requires i < |run|
  {
    var s := run[i];
    && Orderly(s.gitlab)
    && (!s.robot.Idle? && s.robot.listedAt < |run| ==>
          && s.gitlab.branches == run[s.robot.listedAt].gitlab.branches
          && (forall branch :: Waits(s.robot, branch) ==> SameOnBranch(run[s.robot.listedAt].gitlab, s.gitlab, branch))
          && (s.robot.Updating? && s.robot.branches.Some? ==> FreshBranches(s.robot.branches.value, s.gitlab)))
  }

  ghost predicate FreshBranches(branches: seq<Branch>, g: GitLab) {
    && (forall b :: b in branches ==> b.name in g.branches && g.branches[b.name] == b.head && IsSubmitBranch(b.name))
    && (forall i, j :: 0 <= i < j < |branches| ==> branches[i].name != branches[j].name)
  }

  /** The rows of the task describe the requests of the branch exactly. */
  ghost predicate Mirrors(rows: seq<MergeRequest>, g: GitLab, branch: string) {
    && (forall row :: row in rows ==>
          OnBranch(g, row.iid, branch) && row.state == g.requests[row.iid].state
          && row.sha == g.requests[row.iid].sha && row.startedAt == g.requests[row.iid].createdAt)
    && (forall iid :: OnBranch(g, iid, branch) ==> exists row :: row in rows && row.iid == iid)
  }

  lemma MirrorOpen(rows: seq<MergeRequest>, g: GitLab, branch: string)
    requires Mirrors(rows, g, branch)
    ensures var open := BranchRequestsOf(rows).open;
            && (open.Some? <==> g.HasOpen(branch))
            && (open.Some? ==> open.value in rows && open.value.state == Opened)
  {
    BestIsLeast(rows, InState(Opened), Newer);
    if g.HasOpen(branch) {
      var iid :| OnBranch(g, iid, branch) && g.requests[iid].state == Opened;
      var row :| row in rows && row.iid == iid;
    }
  }

  lemma MirrorMerged(rows: seq<MergeRequest>, g: GitLab, branch: string)
    requires Mirrors(rows, g, branch) && Orderly(g)
    ensures Settled(g, branch) <==> !NeedsMergeRequest(BranchRequestsOf(rows).merged, HeadOf(g, branch))
  {
    BestIsLeast(rows, InState(Merged), Newer);
    var merged := BranchRequestsOf(rows).merged;
    if merged.Some? {
      forall other | OnBranch(g, other, branch) && g.requests[other].state == Merged
        ensures g.requests[other].createdAt <= merged.value.startedAt
      {
        var row :| row in rows && row.iid == other;
        assert !Newer(row, merged.value);
      }
      assert NewestMerged(g, merged.value.iid, branch);
    }
    if Settled(g, branch) {
      var iid :| NewestMerged(g, iid, branch) && Covers(g.requests[iid].sha, HeadOf(g, branch));
      var row :| row in rows && row.iid == iid;
      assert merged.Some?;
      assert g.requests[merged.value.iid].createdAt == g.requests[iid].createdAt;
      assert merged.value.iid == iid;
    }
  }

  /** At its turn the branch is decided on true data. */
  lemma RowsMirror(conf: Config, run: seq<State>, actions: seq<Action>, k: nat, i: nat)
    requires QuietRun(conf, run, actions, k) && k <= i < |actions| && actions[i].UpdateBranch?
    requires Known(conf, run, i) && Undisturbed(run, i)
    ensures run[i].robot.Updating? && run[i].robot.branches.Some? && run[i].robot.branches.value != []
    ensures Mirrors(actions[i].taskRows, run[i].gitlab, run[i].robot.branches.value[0].name)
  {
    var s, rows := run[i], actions[i].taskRows;
    assert Step(conf, run, actions, i);
    var l, g, b := s.robot.listedAt, s.gitlab, s.robot.branches.value[0];
    assert b in s.robot.branches.value && Submitted(g, b.name);
    assert Waits(s.robot, b.name);
    assert SameOnBranch(run[l].gitlab, g, b.name);
    forall row | row in rows
      ensures OnBranch(g, row.iid, b.name) && row.state == g.requests[row.iid].state
      ensures row.sha == g.requests[row.iid].sha && row.startedAt == g.requests[row.iid].createdAt
    {
      var iid := KeyOf(s.rows, row);
      assert KnownRow(conf, iid, row, g);
      assert OnBranch(g, iid, g.requests[iid].branch) && Submitted(g, g.requests[iid].branch);
      assert OnBranch(g, iid, b.name) && OnBranch(run[l].gitlab, iid, b.name);
      assert SubmitRequest(run[l].gitlab, iid);
      assert Done(conf, run, s, iid, l, s.robot.cutoffAt);
    }
    forall iid | OnBranch(g, iid, b.name)
      ensures exists row :: row in rows && row.iid == iid
    {
      assert OnBranch(run[l].gitlab, iid, b.name);
      assert SubmitRequest(run[l].gitlab, iid);
      assert Done(conf, run, s, iid, l, s.robot.cutoffAt);
      assert KnownRow(conf, iid, s.rows[iid], g);
      assert s.rows[iid] in s.rows.Values && s.rows[iid] in rows;
    }
  }

  ghost predicate WritesTo(conf: Config, s: State, action: Action, branch: string) {
    && action.UpdateBranch? && action.granted && s.robot.Updating? && s.robot.branches.Some? && s.robot.branches.value != []
    && s.robot.branches.value[0].name == branch
  }

  lemma CreateStep(g: GitLab, branch: string, iid: int, diff: Changes)
    requires Orderly(g) && branch in g.branches && iid !in g.requests && !g.HasOpen(branch) && NewestYet(g, branch)
    ensures var h := g.Change(iid, NewRequest(g, branch, diff));
            && Orderly(h) && Phase(h, branch) == 1
            && SameElsewhere(g, h, branch)
  {
    var h := g.Change(iid, NewRequest(g, branch, diff));
    assert h.requests[iid].branch == branch && h.requests[iid].state == Opened;
    forall a | Submitted(h, a)
      ensures Submitted(g, a)
    {
      if a !in h.branches {
        var x :| OnBranch(h, x, a);
        assert OnBranch(g, x, a);
      }
    }
    forall a, b, name | OnBranch(h, a, name) && OnBranch(h, b, name) && a != b
      ensures h.requests[a].createdAt != h.requests[b].createdAt
      ensures h.requests[a].state == Opened ==> h.requests[b].state != Opened && h.requests[b].createdAt < h.requests[a].createdAt
    {
      if a == iid {
        assert OnBranch(g, b, branch);
      } else if b == iid {
        assert OnBranch(g, a, branch);
      } else {
        assert OnBranch(g, a, name) && OnBranch(g, b, name);
      }
    }
  }

  lemma MergeStep(g: GitLab, branch: string, iid: int, login: string)
    requires Orderly(g) && OnBranch(g, iid, branch) && g.requests[iid].state == Opened
    ensures var h := g.Change(iid, MergedRequest(g.requests[iid], login));
            && Orderly(h) && Phase(h, branch) == 0
            && SameElsewhere(g, h, branch)
  {
    var h := g.Change(iid, MergedRequest(g.requests[iid], login));
    forall a, name
      ensures OnBranch(h, a, name) <==> OnBranch(g, a, name)
    {
    }
    forall a | Submitted(h, a)
      ensures Submitted(g, a)
    {
    }
    assert NewestMerged(h, iid, branch);
    assert Settled(h, branch);
  }

  lemma SamePhase(g: GitLab, h: GitLab, branch: string)
    requires SameOnBranch(g, h, branch) && HeadOf(g, branch) == HeadOf(h, branch)
    ensures Phase(g, branch) == Phase(h, branch)
  {
    forall iid
      ensures NewestMerged(g, iid, branch) <==> NewestMerged(h, iid, branch)
    {
    }
    assert g.HasOpen(branch) <==> exists iid :: OnBranch(g, iid, branch) && g.requests[iid].state == Opened;
    assert h.HasOpen(branch) <==> exists iid :: OnBranch(h, iid, branch) && h.requests[iid].state == Opened;
  }

  // A well-behaved history is orderly

  lemma EmptyIsOrderly(g: GitLab)
    requires g.requests == map[] && OneTaskEach(g)
    ensures Orderly(g)
  {
  }

  /** Changes that open nothing keep the order. */
  lemma NothingOpened(g: GitLab, h: GitLab)
    requires Orderly(g) && OneTaskEach(h)
    requires forall iid :: iid in h.requests ==> iid in g.requests && OpensNothing(g.requests[iid], h.requests[iid], h)
    ensures Orderly(h)
  {
    forall a, b, name | OnBranch(h, a, name) && OnBranch(h, b, name) && a != b
      ensures h.requests[a].createdAt != h.requests[b].createdAt
      ensures h.requests[a].state == Opened ==> h.requests[b].state != Opened && h.requests[b].createdAt < h.requests[a].createdAt
    {
      assert OnBranch(g, a, name) && OnBranch(g, b, name);
    }
  }

  /** The request stays where it is and, if it is open, was open and follows the head. */
  ghost predicate OpensNothing(was: Request, now: Request, h: GitLab) {
    && now.branch == was.branch && now.createdAt == was.createdAt
    && (now.state == Opened ==> was.state == Opened && (now.branch in h.branches ==> now.sha == h.branches[now.branch]))
  }

  /** Every event but a reopening keeps the order, if requests opened by hand are newer and tasks go on naming branches. */
  lemma ReactOrderly(g: GitLab, event: Event)
    requires Orderly(g) && CarefulEvent(g, event) && OneTaskEach(React(g, event))
    ensures Orderly(React(g, event))
  {
    var h := React(g, event);
    if event.OpenByHand? && h != g {
      CreateStep(g, event.branch, event.iid, event.diff);
    } else {
      ReactOpensNothing(g, event);
      NothingOpened(g, h);
    }
  }

  lemma ReactOpensNothing(g: GitLab, event: Event)
    requires Orderly(g) && !event.Reopen? && (event.OpenByHand? ==> React(g, event) == g)
    ensures var h := React(g, event); forall iid :: iid in h.requests ==> iid in g.requests && OpensNothing(g.requests[iid], h.requests[iid], h)
  {
  }

  lemma WriteOrderly(conf: Config, g: GitLab, branch: string, decision: Decision, iid: int, diff: Changes, h: GitLab)
    requires Orderly(g) && Write(conf, g, branch, decision, true, iid, diff, h)
    requires decision.Create? ==> NewestYet(g, branch)
    ensures Orderly(h)
  {
    match decision
    case Create => CreateStep(g, branch, iid, diff);
    case Accept(target, _) => MergeStep(g, g.requests[target].branch, target, conf.robotLogin);
    case Leave =>
  }

  lemma {:induction false} RunOrderly(conf: Config, run: seq<State>, actions: seq<Action>, i: nat)
    requires WellBehaved(conf, run, actions) && i < |run|
    ensures Orderly(run[i].gitlab)
  {
    if i > 0 {
      RunOrderly(conf, run, actions, i - 1);
      var s, t, action := run[i - 1], run[i], actions[i - 1];
      assert Step(conf, run, actions, i - 1) && Careful(conf, s, action);
      if action.Happens? {
        forall a, b | Submitted(t.gitlab, a) && Submitted(t.gitlab, b) && ParseTaskFromBranch(a) == ParseTaskFromBranch(b)
          ensures a == b
        {
          assert SameTask(run[i].gitlab, a, run[i].gitlab, b);
        }
        ReactOrderly(s.gitlab, action.event);
      } else if action.UpdateBranch? && action.granted {
        WriteOrderly(conf, s.gitlab, s.robot.branches.value[0].name, DecisionOf(conf, s.robot, action.taskRows), action.iid, action.diff, t.gitlab);
      }
    }
  }

  /** The effect of one step on the phase of a branch: each write to it takes one. */
  ghost predicate PhaseStep(conf: Config, s: State, action: Action, t: State, branch: string) {
    if WritesTo(conf, s, action, branch)
    then
      && Phase(t.gitlab, branch) + 1 == Phase(s.gitlab, branch)
      && (DecisionOf(conf, s.robot, action.taskRows).Create? <==> Phase(s.gitlab, branch) == 2)
    else Phase(t.gitlab, branch) == Phase(s.gitlab, branch)
  }

  ghost predicate EveryPhaseStep(conf: Config, s: State, action: Action, t: State) {
    forall branch :: PhaseStep(conf, s, action, t, branch)
  }

  lemma WriteStep(conf: Config, run: seq<State>, actions: seq<Action>, k: nat, i: nat)
    requires QuietRun(conf, run, actions, k) && k <= i < |actions| && actions[i].UpdateBranch? && actions[i].granted
    requires Known(conf, run, i) && Undisturbed(run, i)
    ensures run[i].robot.Updating? && run[i].robot.branches.Some? && run[i].robot.branches.value != []
    ensures var branch := run[i].robot.branches.value[0].name;
            && Orderly(run[i + 1].gitlab)
            && run[i + 1].gitlab.branches == run[i].gitlab.branches
            && PhaseStep(conf, run[i], actions[i], run[i + 1], branch)
            && SameElsewhere(run[i].gitlab, run[i + 1].gitlab, branch)
  {
    var s, t, action := run[i], run[i + 1], actions[i];
    assert Step(conf, run, actions, i);
    RowsMirror(conf, run, actions, k, i);
    var g, b := s.gitlab, s.robot.branches.value[0];
    assert b in s.robot.branches.value;
    MirrorOpen(action.taskRows, g, b.name);
    MirrorMerged(action.taskRows, g, b.name);
    var decision := DecisionOf(conf, s.robot, action.taskRows);
    match decision
    case Create =>
      assert Creates(conf, s, action);
      CreateStep(g, b.name, action.iid, action.diff);
    case Accept(iid, sha) =>
      assert OnBranch(g, iid, b.name);
      MergeStep(g, b.name, iid, conf.robotLogin);
    case Leave =>
  }

  lemma SamePhases(g: GitLab, h: GitLab, except: string)
    requires g.branches == h.branches && SameElsewhere(g, h, except)
    ensures forall other :: other != except ==> Phase(g, other) == Phase(h, other)
  {
    forall other | other != except
      ensures Phase(g, other) == Phase(h, other)
    {
      SamePhase(g, h, other);
    }
  }

  lemma UpdatePhases(conf: Config, run: seq<State>, actions: seq<Action>, k: nat, i: nat)
    requires QuietRun(conf, run, actions, k) && k <= i < |actions| && actions[i].UpdateBranch?
    requires Known(conf, run, i) && Undisturbed(run, i)
    ensures EveryPhaseStep(conf, run[i], actions[i], run[i + 1])
  {
    var s, t, action := run[i], run[i + 1], actions[i];
    assert Step(conf, run, actions, i);
    if action.granted {
      WriteStep(conf, run, actions, k, i);
      SamePhases(s.gitlab, t.gitlab, s.robot.branches.value[0].name);
    } else {
      assert t.gitlab == s.gitlab;
    }
    forall branch
      ensures PhaseStep(conf, s, action, t, branch)
    {
    }
  }

  /** The turn of a branch leaves the branches behind it as they were. */
  lemma OthersWait(listed: GitLab, g: GitLab, h: GitLab, todo: seq<Branch>)
    requires todo != [] && FreshBranches(todo, g) && h.branches == g.branches && SameElsewhere(g, h, todo[0].name)
    requires forall k :: 0 <= k < |todo| ==> SameOnBranch(listed, g, todo[k].name)
    ensures FreshBranches(todo[1..], h)
    ensures forall k :: 0 <= k < |todo[1..]| ==> SameOnBranch(listed, h, todo[1..][k].name)
  {
    forall k | 0 <= k < |todo[1..]|
      ensures SameOnBranch(listed, h, todo[1..][k].name)
    {
      assert todo[k + 1].name != todo[0].name;
      assert SameOnBranch(listed, g, todo[k + 1].name) && SameOnBranch(g, h, todo[k + 1].name);
    }
    assert forall b :: b in todo[1..] ==> b in todo;
  }

  lemma UpdateStep(conf: Config, run: seq<State>, actions: seq<Action>, k: nat, i: nat)
    requires QuietRun(conf, run, actions, k) && k <= i < |actions| && actions[i].UpdateBranch?
    requires Known(conf, run, i) && Undisturbed(run, i)
    requires Orderly(run[i + 1].gitlab) && run[i + 1].gitlab.branches == run[i].gitlab.branches
    requires run[i].robot.Updating? && run[i].robot.branches.Some? && run[i].robot.branches.value != []
    requires SameElsewhere(run[i].gitlab, run[i + 1].gitlab, run[i].robot.branches.value[0].name)
    requires run[i + 1].robot == run[i].robot.(branches := Some(run[i].robot.branches.value[1..]))
    ensures Undisturbed(run, i + 1)
  {
    var s, t := run[i], run[i + 1];
    var todo, listed := s.robot.branches.value, run[s.robot.listedAt].gitlab;
    forall k | 0 <= k < |todo|
      ensures SameOnBranch(listed, s.gitlab, todo[k].name)
    {
      assert Waits(s.robot, todo[k].name);
    }
    OthersWait(listed, s.gitlab, t.gitlab, todo);
  }

  lemma QuietStep(conf: Config, run: seq<State>, actions: seq<Action>, k: nat, i: nat)
    requires QuietRun(conf, run, actions, k) && k <= i < |actions| && Known(conf, run, i) && Undisturbed(run, i)
    ensures Undisturbed(run, i + 1)
    ensures EveryPhaseStep(conf, run[i], actions[i], run[i + 1])
  {
    var s, t, action := run[i], run[i + 1], actions[i];
    assert Step(conf, run, actions, i);
    if action.UpdateBranch? {
      UpdatePhases(conf, run, actions, k, i);
      if action.granted {
        WriteStep(conf, run, actions, k, i);
      }
      UpdateStep(conf, run, actions, k, i);
    } else {
      RunSane(conf, run, actions, i);
      OtherSteps(conf, run, actions, k, i);
      SamePhases(s.gitlab, t.gitlab, "");
      SamePhase(s.gitlab, t.gitlab, "");
      SameOrder(s.gitlab, t.gitlab);
      QuietTurn(conf, run, actions, k, i);
    }
  }

  /** Steps of a quiet run but the robot's writes move no branch and no request. */
  lemma OtherSteps(conf: Config, run: seq<State>, actions: seq<Action>, k: nat, i: nat)
    requires QuietRun(conf, run, actions, k) && k <= i < |actions| && (actions[i].UpdateBranch? ==> !actions[i].granted)
    ensures run[i + 1].gitlab.branches == run[i].gitlab.branches && SameEverywhere(run[i].gitlab, run[i + 1].gitlab)
  {
    assert Step(conf, run, actions, i);
    if actions[i].Happens? {
      ReactKeepsShape(run[i].gitlab, actions[i].event);
    }
  }

  lemma ReactKeepsShape(g: GitLab, event: Event)
    requires !Steers(event)
    ensures React(g, event).branches == g.branches && SameEverywhere(g, React(g, event))
  {
  }

  lemma SameOrder(g: GitLab, h: GitLab)
    requires g.branches == h.branches && SameEverywhere(g, h) && Orderly(g)
    ensures Orderly(h)
  {
    forall iid, branch
      ensures OnBranch(g, iid, branch) <==> OnBranch(h, iid, branch)
      ensures OnBranch(g, iid, branch) ==> SameShape(g.requests[iid], h.requests[iid])
    {
      assert SameOnBranch(g, h, branch);
    }
    forall iid | iid in h.requests
      ensures iid in g.requests && SameShape(g.requests[iid], h.requests[iid])
    {
      assert OnBranch(h, iid, h.requests[iid].branch);
    }
    forall branch
      ensures Submitted(g, branch) <==> Submitted(h, branch)
    {
    }
  }

  lemma QuietTurn(conf: Config, run: seq<State>, actions: seq<Action>, k: nat, i: nat)
    requires QuietRun(conf, run, actions, k) && k <= i < |actions| && Known(conf, run, i) && Undisturbed(run, i)
    requires !actions[i].UpdateBranch? && run[i].clock == i
    requires run[i + 1].gitlab.branches == run[i].gitlab.branches
    requires Orderly(run[i + 1].gitlab) && SameEverywhere(run[i].gitlab, run[i + 1].gitlab)
    ensures Undisturbed(run, i + 1)
  {
    var s, t, action := run[i], run[i + 1], actions[i];
    assert Step(conf, run, actions, i);
    if !t.robot.Idle? {
      var l := t.robot.listedAt;
      forall branch | Waits(t.robot, branch)
        ensures SameOnBranch(run[l].gitlab, t.gitlab, branch)
      {
        assert SameOnBranch(s.gitlab, t.gitlab, branch);
        if !action.ListRequests? {
          assert Waits(s.robot, branch);
          assert SameOnBranch(run[l].gitlab, s.gitlab, branch);
        }
      }
    }
  }

  lemma {:induction false} QuietUndisturbed(conf: Config, run: seq<State>, actions: seq<Action>, k: nat, i: nat)
    requires QuietRun(conf, run, actions, k) && k <= i < |run| && run[k].robot.Idle?
    ensures Undisturbed(run, i)
  {
    if k < i {
      QuietUndisturbed(conf, run, actions, k, i - 1);
      RunKnown(conf, run, actions, i - 1);
      QuietStep(conf, run, actions, k, i - 1);
    } else {
      RunOrderly(conf, run, actions, k);
    }
  }

  /** The number of writes to the branch from step k to step n. */
  ghost function Writes(conf: Config, run: seq<State>, actions: seq<Action>, branch: string, k: nat, n: nat): nat
    requires k <= n <= |actions| < |run|
  {
    if n == k then 0
    else Writes(conf, run, actions, branch, k, n - 1) + if WritesTo(conf, run[n - 1], actions[n - 1], branch) then 1 else 0
  }

  lemma QuietWrites(conf: Config, run: seq<State>, actions: seq<Action>, branch: string, k: nat, i: nat)
    requires QuietRun(conf, run, actions, k) && k <= i < |actions| && run[k].robot.Idle?
    ensures PhaseStep(conf, run[i], actions[i], run[i + 1], branch)
    ensures Phase(run[i].gitlab, branch) == 0 ==> !WritesTo(conf, run[i], actions[i], branch)
  {
    QuietUndisturbed(conf, run, actions, k, i);
    RunKnown(conf, run, actions, i);
    QuietStep(conf, run, actions, k, i);
    assert PhaseStep(conf, run[i], actions[i], run[i + 1], branch);
  }

  /**
   * From an idle point of a well-behaved run in which nobody else moves branches or requests
   * any more, every write to a branch lowers its phase by one and nothing else moves it: a
   * creation before a merge, and then none, whatever CI and the reviewers do.
   */
  lemma {:induction false} QuietRobot(conf: Config, run: seq<State>, actions: seq<Action>, branch: string, k: nat, n: nat)
    requires QuietRun(conf, run, actions, k) && k <= n <= |actions| && run[k].robot.Idle?
    ensures Writes(conf, run, actions, branch, k, n) + Phase(run[n].gitlab, branch) == Phase(run[k].gitlab, branch) <= 2
    decreases n
  {
    if k < n {
      QuietRobot(conf, run, actions, branch, k, n - 1);
      QuietWrites(conf, run, actions, branch, k, n - 1);
    }
  }
}
