/**
 * Others may stop moving branches and requests while an iteration of the robot is under way,
 * on data that is out of date: even so the robot writes at most twice more to any branch. So
 * over a whole run it writes at most twice for each of their changes.
 */
module RobotStops {
  import opened Branches
  import opened RobotProtocol
  import opened RobotSafety
  import opened RobotQuiescence

  ghost predicate IsListed(robot: Control, branch: string) {
    robot.Updating? && robot.branches.Some? && exists b :: b in robot.branches.value && b.name == branch
  }

  /** Writes to the branch that the current iteration can still make. */
  ghost function Turns(robot: Control, branch: string): nat {
    match robot
    case Idle => 0
    case Syncing(_, _, _) => 1
    case Updating(_, _, _, branches) => if branches.None? || IsListed(robot, branch) then 1 else 0
  }

  ghost predicate DistinctNames(branches: seq<Branch>) {
    forall i, j :: 0 <= i < j < |branches| ==> branches[i].name != branches[j].name
  }

  ghost predicate Seen(run: seq<State>, i: nat, branch: string) {
    exists j :: 0 <= j <= i && j < |run| && Submitted(run[j].gitlab, branch)
  }

  /** The branches to do are distinct and were in gitlab at some time. */
  ghost predicate BranchesKnown(run: seq<State>, i: nat)
    requires i < |run|
  {
    var robot := run[i].robot;
    robot.Updating? && robot.branches.Some? ==>
      DistinctNames(robot.branches.value) && forall b :: b in robot.branches.value ==> Seen(run, i, b.name)
  }

  lemma {:induction false} RunBranches(conf: Config, run: seq<State>, actions: seq<Action>, i: nat)
    requires IsRun(conf, run, actions) && i < |run|
    ensures BranchesKnown(run, i)
  {
    if i > 0 {
      RunBranches(conf, run, actions, i - 1);
      var s, t := run[i - 1], run[i];
      assert Step(conf, run, actions, i - 1);
      if t.robot.Updating? && t.robot.branches.Some? {
        forall b | b in t.robot.branches.value
          ensures Seen(run, i, b.name)
        {
          if actions[i - 1].ListBranches? {
            assert Submitted(run[i - 1].gitlab, b.name);
          } else {
            assert b in s.robot.branches.value && Seen(run, i - 1, b.name);
          }
        }
      }
    }
  }

  /** A write to a branch uses up its turn. */
  lemma TurnUsed(conf: Config, run: seq<State>, actions: seq<Action>, i: nat, branch: string)
    requires IsRun(conf, run, actions) && i < |actions| && BranchesKnown(run, i) && !run[i].robot.Idle?
    ensures Turns(run[i + 1].robot, branch) + (if WritesTo(conf, run[i], actions[i], branch) then 1 else 0) <= Turns(run[i].robot, branch)
  {
    var s, t := run[i], run[i + 1];
    assert Step(conf, run, actions, i);
    if actions[i].UpdateBranch? {
      var todo := s.robot.branches.value;
      assert todo == [todo[0]] + t.robot.branches.value;
      assert todo[0] in todo;
      if IsListed(t.robot, branch) {
        var b :| b in t.robot.branches.value && b.name == branch;
        var j :| 0 <= j < |t.robot.branches.value| && t.robot.branches.value[j] == b;
        assert todo[j + 1] == b && todo[0].name != todo[j + 1].name;
        assert b in todo;
      }
    }
  }

  /** An accepted request is on the branch whose turn it is. */
  lemma TargetOnBranch(conf: Config, run: seq<State>, actions: seq<Action>, i: nat, iid: int)
    requires WellBehaved(conf, run, actions) && i < |actions| && RobotMerges(conf, run[i], actions[i], run[i + 1], iid)
    ensures OnBranch(run[i].gitlab, iid, run[i].robot.branches.value[0].name)
  {
    var s, branch := run[i], run[i].robot.branches.value[0].name;
    RunKnown(conf, run, actions, i);
    RunBranches(conf, run, actions, i);
    AcceptedRow(conf, s, actions[i].taskRows, ParseTaskFromBranch(branch), DecisionOf(conf, s.robot, actions[i].taskRows));
    assert KnownRow(conf, iid, s.rows[iid], s.gitlab);
    var own := s.gitlab.requests[iid].branch;
    assert OnBranch(s.gitlab, iid, own) && Submitted(s.gitlab, own);
    assert s.robot.branches.value[0] in s.robot.branches.value;
    var j :| 0 <= j <= i && j < |run| && Submitted(run[j].gitlab, branch);
    assert SameTask(run[i].gitlab, own, run[j].gitlab, branch);
  }

  /** After any write of a well-behaved run at most one more is called for. */
  lemma WriteLowers(conf: Config, run: seq<State>, actions: seq<Action>, i: nat)
    requires WellBehaved(conf, run, actions) && i < |actions| && actions[i].UpdateBranch? && actions[i].granted
    ensures run[i].robot.Updating? && run[i].robot.branches.Some? && run[i].robot.branches.value != []
    ensures var branch := run[i].robot.branches.value[0].name;
            && Phase(run[i + 1].gitlab, branch) <= 1
            && run[i + 1].gitlab.branches == run[i].gitlab.branches
            && SameElsewhere(run[i].gitlab, run[i + 1].gitlab, branch)
  {
    var s, t, action := run[i], run[i + 1], actions[i];
    assert Step(conf, run, actions, i) && Careful(conf, s, action);
    RunOrderly(conf, run, actions, i);
    var branch := s.robot.branches.value[0].name;
    var decision := DecisionOf(conf, s.robot, action.taskRows);
    match decision
    case Create =>
      assert Creates(conf, s, action);
      CreateStep(s.gitlab, branch, action.iid, action.diff);
    case Accept(iid, _) =>
      assert RobotMerges(conf, s, action, t, iid);
      TargetOnBranch(conf, run, actions, i, iid);
      MergeStep(s.gitlab, branch, iid, conf.robotLogin);
    case Leave =>
  }

  ghost predicate Busy(run: seq<State>, k: nat, n: nat)
    requires n <= |run|
  {
    forall i :: k <= i < n ==> !run[i].robot.Idle?
  }

  lemma BusyStep(conf: Config, run: seq<State>, actions: seq<Action>, branch: string, k: nat, i: nat)
    requires QuietRun(conf, run, actions, k) && k <= i < |actions|
    ensures if WritesTo(conf, run[i], actions[i], branch)
            then Phase(run[i + 1].gitlab, branch) <= 1
            else Phase(run[i + 1].gitlab, branch) == Phase(run[i].gitlab, branch)
  {
    var s, t, action := run[i], run[i + 1], actions[i];
    if action.UpdateBranch? && action.granted {
      WriteLowers(conf, run, actions, i);
      SamePhases(s.gitlab, t.gitlab, s.robot.branches.value[0].name);
    } else {
      OtherSteps(conf, run, actions, k, i);
      SamePhase(s.gitlab, t.gitlab, branch);
    }
  }

  /** What is left of an iteration writes at most once to a branch, and then the branch is in phase 1 or 0. */
  lemma {:induction false} BusyWrites(conf: Config, run: seq<State>, actions: seq<Action>, branch: string, k: nat, n: nat)
    requires QuietRun(conf, run, actions, k) && k <= n <= |actions| && Busy(run, k, n)
    ensures Writes(conf, run, actions, branch, k, n) + Turns(run[n].robot, branch) <= 1
    ensures Writes(conf, run, actions, branch, k, n) == 1 ==> Phase(run[n].gitlab, branch) <= 1
    decreases n
  {
    if k < n {
      BusyWrites(conf, run, actions, branch, k, n - 1);
      RunBranches(conf, run, actions, n - 1);
      TurnUsed(conf, run, actions, n - 1, branch);
      BusyStep(conf, run, actions, branch, k, n - 1);
    }
  }

  lemma {:induction false} WritesInParts(conf: Config, run: seq<State>, actions: seq<Action>, branch: string, k: nat, m: nat, n: nat)
    requires k <= m <= n <= |actions| < |run|
    ensures Writes(conf, run, actions, branch, k, n) == Writes(conf, run, actions, branch, k, m) + Writes(conf, run, actions, branch, m, n)
    decreases n
  {
    if m < n {
      WritesInParts(conf, run, actions, branch, k, m, n - 1);
    }
  }

  /** The first idle point, if there is one. */
  lemma FirstIdle(run: seq<State>, k: nat, n: nat) returns (m: nat)
    requires k <= n < |run|
    ensures k <= m <= n && Busy(run, k, m) && (m < n ==> run[m].robot.Idle?)
  {
    m := k;
    while m < n && !run[m].robot.Idle?
      invariant k <= m <= n && Busy(run, k, m)
    {
      m := m + 1;
    }
  }

  /**
   * Wherever a well-behaved run stands when others stop moving branches and requests, the robot
   * writes at most twice more to a branch, whatever it has read before, however long it goes on
   * and whatever CI and the reviewers do.
   */
  lemma AtMostTwoWrites(conf: Config, run: seq<State>, actions: seq<Action>, branch: string, k: nat, n: nat)
    requires QuietRun(conf, run, actions, k) && k <= n <= |actions|
    ensures Writes(conf, run, actions, branch, k, n) <= 2
  {
    var m := FirstIdle(run, k, n);
    BusyWrites(conf, run, actions, branch, k, m);
    WritesInParts(conf, run, actions, branch, k, m, n);
    if m < n {
      QuietRobot(conf, run, actions, branch, m, n);
    }
  }

  // Whole runs

  /** How often somebody but the robot moves branches or requests before step n. */
  function Steerings(actions: seq<Action>, n: nat): nat
    requires n <= |actions|
  {
    if n == 0 then 0 else Steerings(actions, n - 1) + if SteersAt(actions[n - 1]) then 1 else 0
  }

  predicate SteersAt(action: Action) {
    action.Happens? && Steers(action.event)
  }

  lemma {:induction false} WritesOfPrefix(conf: Config, run: seq<State>, actions: seq<Action>, branch: string, k: nat, n: nat, end: nat)
    requires k <= n <= end <= |actions| < |run|
    ensures Writes(conf, run[..end + 1], actions[..end], branch, k, n) == Writes(conf, run, actions, branch, k, n)
    decreases n
  {
    if k < n {
      WritesOfPrefix(conf, run, actions, branch, k, n - 1, end);
    }
  }

  lemma PrefixBehaves(conf: Config, run: seq<State>, actions: seq<Action>, n: nat)
    requires WellBehaved(conf, run, actions) && n <= |actions|
    ensures WellBehaved(conf, run[..n + 1], actions[..n])
  {
    var front, first := run[..n + 1], actions[..n];
    forall i | 0 <= i < |first|
      ensures Step(conf, front, first, i) && Careful(conf, front[i], first[i])
    {
      assert Step(conf, run, actions, i) && Careful(conf, run[i], actions[i]);
    }
    forall i, j, a, b | 0 <= i < |front| && 0 <= j < |front| && SameTask(front[i].gitlab, a, front[j].gitlab, b)
      ensures a == b
    {
      assert SameTask(run[i].gitlab, a, run[j].gitlab, b);
    }
  }

  /** The end of the last steering before step n. */
  lemma LastSteering(actions: seq<Action>, n: nat) returns (k: nat)
    requires n <= |actions|
    ensures k <= n && (forall i :: k <= i < n ==> !SteersAt(actions[i]))
    ensures if k == 0 then Steerings(actions, n) == 0 else SteersAt(actions[k - 1]) && Steerings(actions, n) == Steerings(actions, k - 1) + 1
  {
    k := n;
    while k > 0 && !SteersAt(actions[k - 1])
      invariant k <= n && Steerings(actions, n) == Steerings(actions, k)
      invariant forall i :: k <= i < n ==> !SteersAt(actions[i])
    {
      k := k - 1;
    }
  }

  lemma QuietSince(conf: Config, run: seq<State>, actions: seq<Action>, branch: string, k: nat, n: nat)
    requires WellBehaved(conf, run, actions) && k <= n <= |actions| && forall i :: k <= i < n ==> !SteersAt(actions[i])
    ensures Writes(conf, run, actions, branch, k, n) <= 2
  {
    PrefixBehaves(conf, run, actions, n);
    AtMostTwoWrites(conf, run[..n + 1], actions[..n], branch, k, n);
    WritesOfPrefix(conf, run, actions, branch, k, n, n);
  }

  /**
   * In every well-behaved run, at any time, the robot has written to a branch at most twice
   * for the start and twice for every change that others made to branches or requests.
   */
  lemma {:induction false} TwoWritesPerChange(conf: Config, run: seq<State>, actions: seq<Action>, branch: string, n: nat)
    requires WellBehaved(conf, run, actions) && n <= |actions|
    ensures Writes(conf, run, actions, branch, 0, n) <= 2 * (Steerings(actions, n) + 1)
  {
    var k := LastSteering(actions, n);
    QuietSince(conf, run, actions, branch, k, n);
    if k > 0 {
      TwoWritesPerChange(conf, run, actions, branch, k - 1);
      WritesInParts(conf, run, actions, branch, 0, k, n);
    }
  }
}
