/** Totals and the final mark as plain sums over what is shown of the tasks. */
module Totals {
  import opened Wrappers
  import opened Models
  import opened Deadlines
  import opened Scorer
  import opened FinalMark
  import opened Database
  import opened Standings

  function SumOf(numbers: seq<int>): int {
    if numbers == [] then 0 else numbers[0] + SumOf(numbers[1..])
  }

  function RealSumOf(numbers: seq<real>): real {
    if numbers == [] then 0.0 else numbers[0] + RealSumOf(numbers[1..])
  }

  function ScoresOf(tasks: seq<ScoredTask>): seq<int> {
    seq(|tasks|, i requires 0 <= i < |tasks| => tasks[i].score)
  }

  function MaximaOf(tasks: seq<Task>): seq<int> {
    seq(|tasks|, i requires 0 <= i < |tasks| => tasks[i].score)
  }

  function GroupScores(groups: seq<ScoredTaskGroup>): seq<int> {
    seq(|groups|, i requires 0 <= i < |groups| => groups[i].score)
  }

  function GroupMaxima(groups: seq<ScoredTaskGroup>): seq<int> {
    seq(|groups|, i requires 0 <= i < |groups| => groups[i].maxScore)
  }

  /** The assignment's part of the mark: the weight of its scoring group times the share of that group's maximum. */
  ghost predicate IsShare(scoring: Scoring, assignment: TaskGroup, total: int, share: real) {
    if at: nat :| InGroup(scoring, assignment, at) && scoring.groups[at].maxScore > 0
    then share == scoring.groups[at].weight * total as real / scoring.groups[at].maxScore as real
    else share == 0.0
  }

  lemma {:induction false} SumEnd(numbers: seq<int>, last: int)
    ensures SumOf(numbers + [last]) == SumOf(numbers) + last
  {
    if numbers == [] {
      assert [] + [last] == [last] && [last][1..] == [];
    } else {
      SumEnd(numbers[1..], last);
      assert (numbers + [last])[1..] == numbers[1..] + [last];
    }
  }

  lemma {:induction false} RealSumEnd(numbers: seq<real>, last: real)
    ensures RealSumOf(numbers + [last]) == RealSumOf(numbers) + last
  {
    if numbers == [] {
      assert [] + [last] == [last] && [last][1..] == [];
    } else {
      RealSumEnd(numbers[1..], last);
      assert (numbers + [last])[1..] == numbers[1..] + [last];
    }
  }

  lemma {:induction false} TasksSum(tasks: seq<ScoredTask>)
    ensures SumOfScores(tasks) == SumOf(ScoresOf(tasks))
    decreases |tasks|
  {
    if tasks != [] {
      var front, last := tasks[..|tasks| - 1], tasks[|tasks| - 1];
      TasksSum(front);
      SumEnd(ScoresOf(front), last.score);
      assert ScoresOf(tasks) == ScoresOf(front) + [last.score];
    }
  }

  lemma {:induction false} MaximaSum(tasks: seq<Task>)
    ensures TasksTotal(tasks) == SumOf(MaximaOf(tasks))
    decreases |tasks|
  {
    if tasks != [] {
      var front, last := tasks[..|tasks| - 1], tasks[|tasks| - 1];
      MaximaSum(front);
      SumEnd(MaximaOf(front), last.score);
      assert MaximaOf(tasks) == MaximaOf(front) + [last.score];
    }
  }

  lemma ShareIs(course: Course, assignment: TaskGroup, total: int)
    requires Build(course).0 == course
    ensures IsShare(course.scoring, assignment, total, MarkShare(course, assignment, total))
  {
    BuiltPolicy(course, assignment);
  }

  /** What the shares of the assignments add up to. */
  ghost predicate AreShares(course: Course, assignments: seq<TaskGroup>, groups: seq<ScoredTaskGroup>, shares: seq<real>) {
    && |groups| == |assignments| == |shares|
    && forall i :: 0 <= i < |assignments| ==> IsShare(course.scoring, assignments[i], groups[i].score, shares[i])
  }

  ghost predicate AddedUp(course: Course, assignments: seq<TaskGroup>, scores: UserScores, shares: seq<real>) {
    && scores.score == SumOf(GroupScores(scores.groups)) && scores.maxScore == SumOf(GroupMaxima(scores.groups))
    && AreShares(course, assignments, scores.groups, shares) && scores.finalMark == RealSumOf(shares)
  }

  /** What one more group does to scores that add up. */
  function WithGroup(scores: UserScores, scored: ScoredTaskGroup, share: real): UserScores {
    UserScores(scores.groups + [scored], scores.score + scored.score, scores.maxScore + scored.maxScore, scores.finalMark + share, scores.user)
  }

  lemma OneMoreShare(course: Course, front: seq<TaskGroup>, groups: seq<ScoredTaskGroup>, shares: seq<real>, last: TaskGroup, scored: ScoredTaskGroup, share: real)
    requires AreShares(course, front, groups, shares) && IsShare(course.scoring, last, scored.score, share)
    ensures AreShares(course, front + [last], groups + [scored], shares + [share])
  {
  }

  lemma OneMoreGroup(course: Course, front: seq<TaskGroup>, scores: UserScores, shares: seq<real>, last: TaskGroup, scored: ScoredTaskGroup, share: real)
    requires AddedUp(course, front, scores, shares) && IsShare(course.scoring, last, scored.score, share)
    ensures AddedUp(course, front + [last], WithGroup(scores, scored, share), shares + [share])
  {
    OneMoreShare(course, front, scores.groups, shares, last, scored, share);
    SumEnd(GroupScores(scores.groups), scored.score);
    SumEnd(GroupMaxima(scores.groups), scored.maxScore);
    RealSumEnd(shares, share);
    assert GroupScores(scores.groups + [scored]) == GroupScores(scores.groups) + [scored.score];
    assert GroupMaxima(scores.groups + [scored]) == GroupMaxima(scores.groups) + [scored.maxScore];
  }

  lemma LoopStep(course: Course, inputs: Inputs, front: seq<TaskGroup>, last: TaskGroup)
    ensures var before, scored := ScoreAssignments(course, inputs, front), ScoreGroup(course, inputs, last);
            ScoreAssignments(course, inputs, front + [last]) ==
              WithGroup(before, scored, MarkShare(course, last, scored.score)).(user := inputs.user)
  {
    assert (front + [last])[..|front|] == front;
  }

  /** The loop over the assignments adds up. */
  lemma {:induction false} AddsUp(course: Course, inputs: Inputs, assignments: seq<TaskGroup>) returns (shares: seq<real>)
    requires Build(course).0 == course
    ensures AddedUp(course, assignments, ScoreAssignments(course, inputs, assignments), shares)
    decreases |assignments|
  {
    shares := [];
    if assignments != [] {
      var front, last := assignments[..|assignments| - 1], assignments[|assignments| - 1];
      var before := AddsUp(course, inputs, front);
      shares := AddsOne(course, inputs, front, last, before);
      assert assignments == front + [last];
    }
  }

  lemma AddsOne(course: Course, inputs: Inputs, front: seq<TaskGroup>, last: TaskGroup, before: seq<real>) returns (shares: seq<real>)
    requires Build(course).0 == course && AddedUp(course, front, ScoreAssignments(course, inputs, front), before)
    ensures AddedUp(course, front + [last], ScoreAssignments(course, inputs, front + [last]), shares)
  {
    var scored := ScoreGroup(course, inputs, last);
    var share := MarkShare(course, last, scored.score);
    ShareIs(course, last, scored.score);
    OneMoreGroup(course, front, ScoreAssignments(course, inputs, front), before, last, scored, share);
    LoopStep(course, inputs, front, last);
    shares := before + [share];
  }

  /** A student's totals are the sums of what is shown, and the mark is that of the built course's groups. */
  lemma TotalsShown(scores: UserScores, t: Tables, course: Course, workflow: Option<MergeRequestsConfig>, now: Time, user: User)
    returns (shares: seq<real>)
    requires Build(course).0 == course && AreScoresOf(scores, t, course, workflow, now, user)
    ensures scores.user == user && |scores.groups| == |course.assignments|
    ensures forall g :: 0 <= g < |scores.groups| ==>
              && scores.groups[g].score == SumOf(ScoresOf(scores.groups[g].tasks))
              && scores.groups[g].maxScore == SumOf(MaximaOf(course.assignments[g].tasks))
    ensures scores.score == SumOf(GroupScores(scores.groups)) && scores.maxScore == SumOf(GroupMaxima(scores.groups))
    ensures AreShares(course, course.assignments, scores.groups, shares) && scores.finalMark == RealSumOf(shares)
  {
    var inputs :| Describes(inputs, t, course, workflow, now, user) && scores == UserScoresOf(course, inputs);
    shares := AddsUp(course, inputs, course.assignments);
    ScoresGroups(course, inputs, course.assignments);
    forall g | 0 <= g < |scores.groups|
      ensures scores.groups[g].score == SumOf(ScoresOf(scores.groups[g].tasks))
      ensures scores.groups[g].maxScore == SumOf(MaximaOf(course.assignments[g].tasks))
    {
      TasksSum(scores.groups[g].tasks);
      MaximaSum(course.assignments[g].tasks);
    }
    UserKept(course, inputs, course.assignments);
  }

  lemma {:induction false} UserKept(course: Course, inputs: Inputs, assignments: seq<TaskGroup>)
    ensures ScoreAssignments(course, inputs, assignments).user == inputs.user
  {
  }
}
