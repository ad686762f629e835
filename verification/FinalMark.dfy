/** The final mark against the weights of the scoring groups. */
module FinalMark {
  import opened Models
  import opened Wrappers
  import opened ScoringPolicies
  import opened Deadlines
  import opened Scorer
  import opened ScorerTheorems

  /** The mark of given group totals: the loop's sum. */
  function Mark(course: Course, assignments: seq<TaskGroup>, totals: seq<int>): real
    requires |totals| == |assignments|
  {
    if assignments == [] then 0.0
    else
      var n := |assignments| - 1;
      Mark(course, assignments[..n], totals[..n]) + MarkShare(course, assignments[n], totals[n])
  }

  /** The same sum over one scoring group only. */
  function GroupMark(course: Course, assignments: seq<TaskGroup>, totals: seq<int>, at: nat): real
    requires |totals| == |assignments|
  {
    if assignments == [] then 0.0
    else
      var n := |assignments| - 1;
      GroupMark(course, assignments[..n], totals[..n], at)
        + if course.GetScoringGroup(assignments[n]) == Some(at) then MarkShare(course, assignments[n], totals[n]) else 0.0
  }

  function GroupSum(course: Course, assignments: seq<TaskGroup>, totals: seq<int>, at: nat): int
    requires |totals| == |assignments|
  {
    if assignments == [] then 0
    else
      var n := |assignments| - 1;
      GroupSum(course, assignments[..n], totals[..n], at)
        + if course.GetScoringGroup(assignments[n]) == Some(at) then totals[n] else 0
  }

  function GroupMarks(course: Course, assignments: seq<TaskGroup>, totals: seq<int>, upTo: nat): real
    requires |totals| == |assignments|
  {
    if upTo == 0 then 0.0
    else GroupMarks(course, assignments, totals, upTo - 1) + GroupMark(course, assignments, totals, upTo - 1)
  }

  predicate Referenced(course: Course, at: nat) {
    exists group :: group in course.assignments && course.GetScoringGroup(group) == Some(at)
  }

  /** Weights of the scoring groups that some assignment belongs to, each counted once. */
  function Weights(course: Course, upTo: nat): real
    requires upTo <= |course.scoring.groups|
  {
    if upTo == 0 then 0.0
    else Weights(course, upTo - 1) + if Referenced(course, upTo - 1) then course.scoring.groups[upTo - 1].weight else 0.0
  }

  /** Every indexed group's maximum is the total of its tasks. */
  ghost predicate Totalled(course: Course) {
    forall name :: name in course.groups ==>
      var group := course.scoring.groups[course.groups[name]];
      group.name == name && group.maxScore == GroupTotal(course, course.assignments, name)
  }

  lemma {:induction false} GroupMarksStep(course: Course, assignments: seq<TaskGroup>, totals: seq<int>, upTo: nat)
    requires |totals| == |assignments| > 0
    ensures var n, group := |assignments| - 1, course.GetScoringGroup(assignments[|assignments| - 1]);
            GroupMarks(course, assignments, totals, upTo) ==
              GroupMarks(course, assignments[..n], totals[..n], upTo)
                + if group.Some? && group.value < upTo then MarkShare(course, assignments[n], totals[n]) else 0.0
  {
    if upTo != 0 {
      GroupMarksStep(course, assignments, totals, upTo - 1);
    }
  }

  lemma {:induction false} EmptyMarks(course: Course, upTo: nat)
    ensures GroupMarks(course, [], [], upTo) == 0.0
  {
    if upTo != 0 {
      EmptyMarks(course, upTo - 1);
    }
  }

  /** The sum over assignments regrouped by scoring group. */
  lemma {:induction false} MarkRegrouped(course: Course, assignments: seq<TaskGroup>, totals: seq<int>)
    requires |totals| == |assignments|
    ensures Mark(course, assignments, totals) == GroupMarks(course, assignments, totals, |course.scoring.groups|)
    decreases |assignments|
  {
    if assignments == [] {
      EmptyMarks(course, |course.scoring.groups|);
    } else {
      var n := |assignments| - 1;
      MarkRegrouped(course, assignments[..n], totals[..n]);
      GroupMarksStep(course, assignments, totals, |course.scoring.groups|);
    }
  }

  lemma WeightedSum(w: real, x: int, y: int)
    ensures Weighted(w, x) + Weighted(w, y) == Weighted(w, x + y)
  {
  }

  lemma QuotientSum(p: real, q: real, m: real)
    requires m != 0.0
    ensures p / m + q / m == (p + q) / m
  {
  }

  lemma ShareOfSum(w: real, x: int, y: int, m: int)
    ensures Share(w, x, m) + Share(w, y, m) == Share(w, x + y, m)
  {
    if m > 0 {
      WeightedSum(w, x, y);
      QuotientSum(Weighted(w, x), Weighted(w, y), m as real);
    }
  }

  lemma {:induction false} GroupMarkScaled(course: Course, assignments: seq<TaskGroup>, totals: seq<int>, at: nat)
    requires |totals| == |assignments| && at < |course.scoring.groups|
    ensures GroupMark(course, assignments, totals, at) ==
            Share(course.scoring.groups[at].weight, GroupSum(course, assignments, totals, at), course.scoring.groups[at].maxScore)
    decreases |assignments|
  {
    var group := course.scoring.groups[at];
    if assignments == [] {
      ShareOfSum(group.weight, 0, 0, group.maxScore);
    } else {
      var n := |assignments| - 1;
      GroupMarkScaled(course, assignments[..n], totals[..n], at);
      ShareOfSum(group.weight, GroupSum(course, assignments[..n], totals[..n], at), totals[n], group.maxScore);
    }
  }

  ghost predicate WithinTasks(assignments: seq<TaskGroup>, totals: seq<int>)
    requires |totals| == |assignments|
  {
    forall i :: 0 <= i < |assignments| ==> 0 <= totals[i] <= TasksTotal(assignments[i].tasks)
  }

  ghost predicate FullTasks(assignments: seq<TaskGroup>, totals: seq<int>)
    requires |totals| == |assignments|
  {
    forall i :: 0 <= i < |assignments| ==> totals[i] == TasksTotal(assignments[i].tasks)
  }

  /** A group's sum is at most the total of its tasks, and equals it when every task is full. */
  lemma {:induction false} GroupSumBounded(course: Course, assignments: seq<TaskGroup>, totals: seq<int>, name: string)
    requires |totals| == |assignments| && Totalled(course) && name in course.groups
    requires WithinTasks(assignments, totals)
    ensures 0 <= GroupSum(course, assignments, totals, course.groups[name]) <= GroupTotal(course, assignments, name)
    ensures FullTasks(assignments, totals) ==>
              GroupSum(course, assignments, totals, course.groups[name]) == GroupTotal(course, assignments, name)
    decreases |assignments|
  {
    if assignments != [] {
      var n := |assignments| - 1;
      GroupSumBounded(course, assignments[..n], totals[..n], name);
      var last := course.GroupName(assignments[n]);
      assert last in course.groups ==> course.scoring.groups[course.groups[last]].name == last;
    }
  }

  lemma WeightedWhole(w: real, m: nat)
    requires 0 < m
    ensures Weighted(w, m) / m as real == w
  {
  }

  lemma WholeShare(w: real, t: nat, m: nat)
    requires 0.0 <= w && t <= m && 0 < m
    ensures Share(w, t, m) <= w
    ensures t == m ==> Share(w, t, m) == w
  {
    WeightedWhole(w, m);
    WeightedRises(w, t, m);
    DivMonotone(Weighted(w, t), Weighted(w, m), m as real);
  }

  lemma {:induction false} UnreferencedMark(course: Course, assignments: seq<TaskGroup>, totals: seq<int>, at: nat)
    requires |totals| == |assignments| && !Referenced(course, at)
    requires forall group :: group in assignments ==> group in course.assignments
    ensures GroupMark(course, assignments, totals, at) == 0.0
    decreases |assignments|
  {
    if assignments != [] {
      var n := |assignments| - 1;
      assert assignments[n] in assignments;
      UnreferencedMark(course, assignments[..n], totals[..n], at);
    }
  }

  lemma GroupMarkBounded(course: Course, totals: seq<int>, at: nat)
    requires |totals| == |course.assignments| && Totalled(course) && WithinTasks(course.assignments, totals)
    requires at < |course.scoring.groups| && 0.0 <= course.scoring.groups[at].weight
    ensures var w := if Referenced(course, at) then course.scoring.groups[at].weight else 0.0;
            && GroupMark(course, course.assignments, totals, at) <= w
            && (FullTasks(course.assignments, totals) && (Referenced(course, at) ==> course.scoring.groups[at].maxScore > 0) ==>
                  GroupMark(course, course.assignments, totals, at) == w)
  {
    if Referenced(course, at) {
      var group :| group in course.assignments && course.GetScoringGroup(group) == Some(at);
      var name := course.GroupName(group);
      GroupMarkScaled(course, course.assignments, totals, at);
      GroupSumBounded(course, course.assignments, totals, name);
      var sum, max := GroupSum(course, course.assignments, totals, at), course.scoring.groups[at].maxScore;
      if max > 0 {
        WholeShare(course.scoring.groups[at].weight, sum, max);
      }
    } else {
      UnreferencedMark(course, course.assignments, totals, at);
    }
  }

  lemma {:induction false} MarksBounded(course: Course, totals: seq<int>, upTo: nat)
    requires |totals| == |course.assignments| && Totalled(course) && WithinTasks(course.assignments, totals)
    requires upTo <= |course.scoring.groups| && forall group :: group in course.scoring.groups ==> 0.0 <= group.weight
    ensures GroupMarks(course, course.assignments, totals, upTo) <= Weights(course, upTo)
    ensures FullTasks(course.assignments, totals)
            && (forall at :: 0 <= at < upTo && Referenced(course, at) ==> course.scoring.groups[at].maxScore > 0) ==>
              GroupMarks(course, course.assignments, totals, upTo) == Weights(course, upTo)
  {
    if upTo != 0 {
      assert course.scoring.groups[upTo - 1] in course.scoring.groups;
      MarksBounded(course, totals, upTo - 1);
      GroupMarkBounded(course, totals, upTo - 1);
    }
  }

  /** With no configured maximum a successful build makes every maximum a total. */
  lemma BuildTotals(d: Indexed)
    requires Build(d).1.None? && forall group :: group in d.scoring.groups ==> group.maxScore == 0
    ensures Totalled(Build(d).0)
  {
    var built := Build(d).0;
    forall name | name in built.groups
      ensures var group := built.scoring.groups[built.groups[name]];
              group.name == name && group.maxScore == GroupTotal(built, built.assignments, name)
    {
      IndexGroupsIsLast(d.scoring.groups, name);
      assert d.scoring.groups[built.groups[name]] in d.scoring.groups;
      GroupTotalIgnoresGroups(WithIndexes(d), built, d.assignments, name);
    }
  }

  ghost function TotalsOf(scores: UserScores): seq<int> {
    seq(|scores.groups|, i requires 0 <= i < |scores.groups| => scores.groups[i].score)
  }

  lemma GroupsStep(course: Course, inputs: Inputs, front: seq<TaskGroup>, last: TaskGroup)
    ensures ScoreAssignments(course, inputs, front + [last]).groups
         == ScoreAssignments(course, inputs, front).groups + [ScoreGroup(course, inputs, last)]
  {
    assert (front + [last])[..|front|] == front;
  }

  ghost predicate GroupsScored(course: Course, inputs: Inputs, assignments: seq<TaskGroup>, groups: seq<ScoredTaskGroup>) {
    |groups| == |assignments| && forall i :: 0 <= i < |assignments| ==> groups[i] == ScoreGroup(course, inputs, assignments[i])
  }

  lemma OneMoreScored(course: Course, inputs: Inputs, front: seq<TaskGroup>, groups: seq<ScoredTaskGroup>, last: TaskGroup)
    requires GroupsScored(course, inputs, front, groups)
    ensures GroupsScored(course, inputs, front + [last], groups + [ScoreGroup(course, inputs, last)])
  {
  }

  lemma ScoredStep(course: Course, inputs: Inputs, front: seq<TaskGroup>, last: TaskGroup)
    requires GroupsScored(course, inputs, front, ScoreAssignments(course, inputs, front).groups)
    ensures GroupsScored(course, inputs, front + [last], ScoreAssignments(course, inputs, front + [last]).groups)
  {
    GroupsStep(course, inputs, front, last);
    OneMoreScored(course, inputs, front, ScoreAssignments(course, inputs, front).groups, last);
  }

  lemma {:induction false} ScoresGroups(course: Course, inputs: Inputs, assignments: seq<TaskGroup>)
    ensures GroupsScored(course, inputs, assignments, ScoreAssignments(course, inputs, assignments).groups)
    decreases |assignments|
  {
    if assignments != [] {
      var front, last := assignments[..|assignments| - 1], assignments[|assignments| - 1];
      ScoresGroups(course, inputs, front);
      ScoredStep(course, inputs, front, last);
      assert assignments == front + [last];
    }
  }

  lemma MarkStep(course: Course, assignments: seq<TaskGroup>, totals: seq<int>, group: TaskGroup, total: int)
    requires |totals| == |assignments|
    ensures Mark(course, assignments + [group], totals + [total]) == Mark(course, assignments, totals) + MarkShare(course, group, total)
  {
    assert (assignments + [group])[..|assignments|] == assignments && (totals + [total])[..|totals|] == totals;
  }

  /** The accumulated mark is the mark of the accumulated totals. */
  lemma {:induction false} ScoresMark(course: Course, inputs: Inputs, assignments: seq<TaskGroup>)
    ensures var scores := ScoreAssignments(course, inputs, assignments);
            |scores.groups| == |assignments| && scores.finalMark == Mark(course, assignments, TotalsOf(scores))
    decreases |assignments|
  {
    if assignments != [] {
      var front, last := assignments[..|assignments| - 1], assignments[|assignments| - 1];
      ScoresMark(course, inputs, front);
      var before, scored := ScoreAssignments(course, inputs, front), ScoreGroup(course, inputs, last);
      MarkStep(course, front, TotalsOf(before), last, scored.score);
      assert assignments == front + [last];
      assert TotalsOf(ScoreAssignments(course, inputs, assignments)) == TotalsOf(before) + [scored.score];
    }
  }

  lemma {:induction false} TasksWithin(scored: seq<ScoredTask>, tasks: seq<Task>)
    requires |scored| == |tasks| && forall i :: 0 <= i < |tasks| ==> 0 <= scored[i].score <= tasks[i].score
    ensures 0 <= SumOfScores(scored) <= TasksTotal(tasks)
    ensures (forall i :: 0 <= i < |tasks| ==> scored[i].score == tasks[i].score) ==> SumOfScores(scored) == TasksTotal(tasks)
  {
    if tasks != [] {
      TasksWithin(scored[..|tasks| - 1], tasks[..|tasks| - 1]);
    }
  }

  ghost predicate TaskScoresWithin(course: Course, scores: UserScores) {
    && |scores.groups| == |course.assignments|
    && forall g :: 0 <= g < |scores.groups| ==>
         && |scores.groups[g].tasks| == |course.assignments[g].tasks|
         && forall i :: 0 <= i < |scores.groups[g].tasks| ==>
              0 <= scores.groups[g].tasks[i].score <= course.assignments[g].tasks[i].score
  }

  ghost predicate TaskScoresFull(course: Course, scores: UserScores)
    requires TaskScoresWithin(course, scores)
  {
    forall g, i :: 0 <= g < |scores.groups| && 0 <= i < |scores.groups[g].tasks| ==>
      scores.groups[g].tasks[i].score == course.assignments[g].tasks[i].score
  }

  lemma TotalsWithin(course: Course, inputs: Inputs)
    requires TaskScoresWithin(course, UserScoresOf(course, inputs))
    ensures var scores := UserScoresOf(course, inputs);
            && WithinTasks(course.assignments, TotalsOf(scores))
            && (TaskScoresFull(course, scores) ==> FullTasks(course.assignments, TotalsOf(scores)))
  {
    var scores := UserScoresOf(course, inputs);
    ScoresGroups(course, inputs, course.assignments);
    forall g | 0 <= g < |course.assignments|
      ensures 0 <= TotalsOf(scores)[g] <= TasksTotal(course.assignments[g].tasks)
      ensures TaskScoresFull(course, scores) ==> TotalsOf(scores)[g] == TasksTotal(course.assignments[g].tasks)
    {
      TasksWithin(scores.groups[g].tasks, course.assignments[g].tasks);
    }
  }

  lemma WeightsKept(d: Indexed)
    requires forall group :: group in d.scoring.groups ==> 0.0 <= group.weight
    ensures forall group :: group in Build(d).0.scoring.groups ==> 0.0 <= group.weight
  {
    var groups := Build(d).0.scoring.groups;
    forall group | group in groups
      ensures 0.0 <= group.weight
    {
      var i :| 0 <= i < |groups| && groups[i] == group;
      assert d.scoring.groups[i] in d.scoring.groups;
    }
  }

  /**
   * With maxima computed from the tasks, task scores within their own maxima and weights
   * not negative, the final mark is at most the sum of the weights of the groups in use;
   * it reaches the sum when every task is full and every such group has points to give.
   */
  lemma MarkBounded(d: Indexed, inputs: Inputs)
    requires Build(d).1.None? && forall group :: group in d.scoring.groups ==> group.maxScore == 0 && 0.0 <= group.weight
    ensures var course, scores := Build(d).0, UserScoresOf(Build(d).0, inputs);
            TaskScoresWithin(course, scores) ==>
              && scores.finalMark <= Weights(course, |course.scoring.groups|)
              && (TaskScoresFull(course, scores)
                  && (forall at :: 0 <= at < |course.scoring.groups| && Referenced(course, at) ==> course.scoring.groups[at].maxScore > 0) ==>
                    scores.finalMark == Weights(course, |course.scoring.groups|))
  {
    var course: Course := Build(d).0;
    if TaskScoresWithin(course, UserScoresOf(course, inputs)) {
      BuildTotals(d);
      TotalsWithin(course, inputs);
      WeightsKept(d);
      ScoresMark(course, inputs, course.assignments);
      var totals := TotalsOf(UserScoresOf(course, inputs));
      MarkRegrouped(course, course.assignments, totals);
      MarksBounded(course, totals, |course.scoring.groups|);
    }
  }

  // The bound from the rows

  /** A course without benchmark bonuses, whose retakes pay no more than the task. */
  ghost predicate PlainCourse(course: Course) {
    && FairCourse(course) && course.scoring.retakePenalty <= 1.0
    && forall group, task :: group in course.assignments && task in group.tasks ==> task.leaderboard.None?
  }

  ghost predicate NoOverrides(inputs: Inputs) {
    forall task :: OverrideOf(inputs.overrides, inputs.user.gitlabLogin, task).None?
  }

  /** Then every task scores within its own score, whatever the rows. */
  lemma PlainScoresWithin(course: Course, inputs: Inputs)
    requires PlainCourse(course) && NoOverrides(inputs) && ValidPlaces(inputs)
    ensures TaskScoresWithin(course, UserScoresOf(course, inputs))
  {
    ScoresGroups(course, inputs, course.assignments);
    var groups := UserScoresOf(course, inputs).groups;
    forall g, i | 0 <= g < |groups| && 0 <= i < |course.assignments[g].tasks|
      ensures 0 <= groups[g].tasks[i].score <= course.assignments[g].tasks[i].score
    {
      PlainTaskWithin(course, inputs, course.assignments[g], course.assignments[g].tasks[i]);
      assert groups[g] == ScoreGroup(course, inputs, course.assignments[g]);
    }
  }

  lemma PlainTaskWithin(course: Course, inputs: Inputs, group: TaskGroup, task: Task)
    requires PlainCourse(course) && NoOverrides(inputs) && ValidPlaces(inputs)
    requires group in course.assignments && task in group.tasks
    ensures 0 <= ScoreTaskOf(course, inputs, group, task).score <= task.score
  {
    TaskBounded(inputs.workflow, inputs.now, RulesOf(course, group, inputs.user), task, group.deadline, FactsOf(inputs, task.task));
    NoBonusScale(task.score);
  }

  /** The bound on the final mark for any rows of a plain course. */
  lemma PlainMarkBounded(d: Indexed, inputs: Inputs)
    requires Build(d).1.None? && forall group :: group in d.scoring.groups ==> group.maxScore == 0 && 0.0 <= group.weight
    requires PlainCourse(Build(d).0) && NoOverrides(inputs) && ValidPlaces(inputs)
    ensures UserScoresOf(Build(d).0, inputs).finalMark <= Weights(Build(d).0, |Build(d).0.scoring.groups|)
  {
    PlainScoresWithin(Build(d).0, inputs);
    MarkBounded(d, inputs);
  }
}
