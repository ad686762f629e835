/** What holds of scores whatever the rows: order independence, monotonicity, the bound on the mark. */
module ScorerTheorems {
  import opened Wrappers
  import opened Models
  import opened GoMath
  import opened ScoringPolicies
  import opened Selection
  import opened TaskScore
  import opened Deadlines
  import opened Representative
  import opened Scorer

  ghost predicate FairTask(task: Task) {
    0 <= task.score && ValidBonus(task.leaderboard)
  }

  /** Every policy is resolved and only decays; scores, bonuses and weights are not negative. */
  ghost predicate FairCourse(course: Course) {
    && (forall group :: group in course.assignments ==>
          && course.GetScoringPolicy(group).Some? && course.GetScoringPolicy(group).value.Decays()
          && forall task :: task in group.tasks ==> FairTask(task))
    && (forall group :: group in course.scoring.groups ==> 0.0 <= group.weight)
  }

  ghost predicate ValidPlaces(inputs: Inputs) {
    forall task :: ValidPlace(Lookup(inputs.places, task))
  }

  // Order independence

  ghost predicate TiedOptions<T>(less: (T, T) -> bool, a: Option<T>, b: Option<T>) {
    a.Some? == b.Some? && (a.Some? ==> Tied(less, a.value, b.value))
  }

  ghost predicate TiedFacts(a: Facts, b: Facts) {
    && TiedOptions(FlagLess, a.flag, b.flag)
    && TiedOptions(PipelineLess, a.pipeline, b.pipeline)
    && a.request.Some? == b.request.Some?
    && (a.request.Some? ==> Tied(RequestBetter, a.request.value.request, b.request.value.request))
    && a.place == b.place && a.override == b.override
  }

  ghost predicate SameVerdict(a: ScoredTask, b: ScoredTask) {
    a.status == b.status && a.score == b.score && a.rank == b.rank && a.overridden == b.overridden
  }

  /** Tied representatives give the same status and score; only the review details can differ. */
  lemma TiedFactsScoreAlike(workflow: Option<MergeRequestsConfig>, now: Time, rules: Rules, task: Task, deadline: Time, a: Facts, b: Facts)
    requires TiedFacts(a, b)
    ensures SameVerdict(ScoreTask(workflow, now, rules, task, deadline, a), ScoreTask(workflow, now, rules, task, deadline, b))
    ensures a.request == b.request ==>
              ScoreTask(workflow, now, rules, task, deadline, a) == ScoreTask(workflow, now, rules, task, deadline, b)
  {
    var x, y := OutcomeOf(workflow, now, rules, task, deadline, a), OutcomeOf(workflow, now, rules, task, deadline, b);
    assert x.status == y.status && x.points == y.points && (x.status == TaskSuccess ==> x.submittedAt == y.submittedAt);
  }

  /** The same rows in any order: banned ids, overrides and places as they are. */
  ghost predicate SameInputs(a: Inputs, b: Inputs) {
    && a.user == b.user && a.workflow == b.workflow && a.now == b.now && a.bans == b.bans && a.places == b.places
    && SameRows(a.pipelines, b.pipelines) && SameRows(a.flags, b.flags) && SameRows(a.requests, b.requests)
    && (forall task :: OverrideOf(a.overrides, a.user.gitlabLogin, task) == OverrideOf(b.overrides, b.user.gitlabLogin, task))
  }

  lemma SameInputsTiedFacts(a: Inputs, b: Inputs, task: string)
    requires SameInputs(a, b)
    ensures TiedFacts(FactsOf(a, task), FactsOf(b, task))
    ensures a.requests == b.requests ==> FactsOf(a, task).request == FactsOf(b, task).request
  {
    PipelineOrder();
    FlagOrder();
    RequestOrder();
    BestIgnoresOrder(a.pipelines, b.pipelines, UnbannedPipeline(a.bans, task), PipelineLess);
    BestIgnoresOrder(a.flags, b.flags, OfTask(task), FlagLess);
    BestIgnoresOrder(a.requests, b.requests, UnbannedRequest(a.bans, task), RequestBetter);
  }

  ghost predicate SameScores(a: UserScores, b: UserScores) {
    && a.score == b.score && a.maxScore == b.maxScore && a.finalMark == b.finalMark && |a.groups| == |b.groups|
    && forall g :: 0 <= g < |a.groups| ==>
         && a.groups[g].score == b.groups[g].score && |a.groups[g].tasks| == |b.groups[g].tasks|
         && forall i :: 0 <= i < |a.groups[g].tasks| ==> SameVerdict(a.groups[g].tasks[i], b.groups[g].tasks[i])
  }

  lemma {:induction false} SameVerdictsSameSum(a: seq<ScoredTask>, b: seq<ScoredTask>)
    requires |a| == |b| && forall i :: 0 <= i < |a| ==> a[i].score == b[i].score
    ensures SumOfScores(a) == SumOfScores(b)
  {
    if a != [] {
      SameVerdictsSameSum(a[..|a| - 1], b[..|b| - 1]);
    }
  }

  lemma GroupIgnoresOrder(course: Course, a: Inputs, b: Inputs, group: TaskGroup)
    requires SameInputs(a, b)
    ensures var x, y := ScoreGroup(course, a, group), ScoreGroup(course, b, group);
            && x.score == y.score && |x.tasks| == |y.tasks|
            && (forall i :: 0 <= i < |x.tasks| ==> SameVerdict(x.tasks[i], y.tasks[i]))
            && (a.requests == b.requests ==> x == y)
  {
    var x, y := ScoreGroup(course, a, group), ScoreGroup(course, b, group);
    forall i | 0 <= i < |group.tasks|
      ensures SameVerdict(x.tasks[i], y.tasks[i])
      ensures a.requests == b.requests ==> x.tasks[i] == y.tasks[i]
    {
      SameInputsTiedFacts(a, b, group.tasks[i].task);
      TiedFactsScoreAlike(a.workflow, a.now, RulesOf(course, group, a.user), group.tasks[i], group.deadline,
        FactsOf(a, group.tasks[i].task), FactsOf(b, group.tasks[i].task));
    }
    SameVerdictsSameSum(x.tasks, y.tasks);
    if a.requests == b.requests {
      assert x.tasks == y.tasks;
    }
  }

  /** Statuses, scores, totals and the final mark do not depend on the order of any rows. */
  lemma {:induction false} ScoresIgnoreOrder(course: Course, a: Inputs, b: Inputs, assignments: seq<TaskGroup>)
    requires SameInputs(a, b)
    ensures SameScores(ScoreAssignments(course, a, assignments), ScoreAssignments(course, b, assignments))
    ensures a.requests == b.requests ==> ScoreAssignments(course, a, assignments) == ScoreAssignments(course, b, assignments)
    decreases |assignments|
  {
    if assignments != [] {
      ScoresIgnoreOrder(course, a, b, assignments[..|assignments| - 1]);
      GroupIgnoresOrder(course, a, b, assignments[|assignments| - 1]);
    }
  }

  // Monotonicity

  /** a is at most as good as b: no better representative, no better place. */
  ghost predicate NoBetterFacts(a: Facts, b: Facts) {
    && a.flag == b.flag && a.override == b.override
    && (a.pipeline.Some? ==> b.pipeline.Some? && !PipelineLess(a.pipeline.value, b.pipeline.value))
    && (a.request.Some? ==> b.request.Some? && !RequestBetter(a.request.value.request, b.request.value.request))
    && NoBetter(a.place, b.place) && ValidPlace(a.place) && ValidPlace(b.place)
  }

  ghost predicate NoBetterOutcome(x: Outcome, y: Outcome) {
    && 0 <= x.points <= y.points
    && (x.status == TaskSuccess ==> y.status == TaskSuccess && y.submittedAt <= x.submittedAt)
  }

  /** Success of the later submission implies at least the points of the earlier one. */
  lemma PipelineOutcome(rules: Rules, taskScore: nat, deadline: Time, a: Pipeline, b: Pipeline)
    requires rules.Fair() && !PipelineLess(a, b)
    ensures 0 <= ScorePipeline(rules, taskScore, deadline, a.status, a.startedAt) <= ScorePipeline(rules, taskScore, deadline, b.status, b.startedAt)
    ensures a.status == Success ==> b.status == Success && b.startedAt <= a.startedAt
  {
    SuccessDecays(rules, taskScore, deadline, b.startedAt, b.startedAt);
    if a.status == Success {
      SuccessDecays(rules, taskScore, deadline, b.startedAt, a.startedAt);
    }
  }

  lemma RequestOutcome(config: MergeRequestsConfig, now: Time, rules: Rules, taskScore: nat, deadline: Time, a: RequestInfo, b: RequestInfo)
    requires rules.Fair() && !RequestBetter(a.request, b.request)
    ensures NoBetterOutcome(ScoreRequest(config, now, rules, taskScore, deadline, a), ScoreRequest(config, now, rules, taskScore, deadline, b))
  {
    var early := b.request.lastPipelineCreatedAt;
    SuccessDecays(rules, taskScore, deadline, early, early);
    if ClassifyRequest(a.request) == MERGED && IsCreditable(a.request) {
      SuccessDecays(rules, taskScore, deadline, early, a.request.lastPipelineCreatedAt);
    }
  }

  lemma OutcomeMonotone(workflow: Option<MergeRequestsConfig>, now: Time, rules: Rules, task: Task, deadline: Time, a: Facts, b: Facts)
    requires rules.Fair() && FairTask(task) && NoBetterFacts(a, b)
    ensures NoBetterOutcome(OutcomeOf(workflow, now, rules, task, deadline, a), OutcomeOf(workflow, now, rules, task, deadline, b))
  {
    if a.flag.Some? {
      SuccessDecays(rules, task.score, deadline, a.flag.value.createdAt, a.flag.value.createdAt);
    } else if !task.crashme {
      if workflow.Some? {
        if b.request.Some? {
          var from := if a.request.Some? then a.request.value else b.request.value;
          RequestOutcome(workflow.value, now, rules, task.score, deadline, from, b.request.value);
        }
      } else if b.pipeline.Some? {
        var from := if a.pipeline.Some? then a.pipeline.value else b.pipeline.value;
        PipelineOutcome(rules, task.score, deadline, from, b.pipeline.value);
      }
    }
  }

  lemma TaskMonotone(workflow: Option<MergeRequestsConfig>, now: Time, rules: Rules, task: Task, deadline: Time, a: Facts, b: Facts)
    requires rules.Fair() && FairTask(task) && NoBetterFacts(a, b)
    ensures ScoreTask(workflow, now, rules, task, deadline, a).score <= ScoreTask(workflow, now, rules, task, deadline, b).score
  {
    OutcomeMonotone(workflow, now, rules, task, deadline, a, b);
    var x, y := OutcomeOf(workflow, now, rules, task, deadline, a), OutcomeOf(workflow, now, rules, task, deadline, b);
    AddBonusMonotone(
      x.points, x.status == TaskSuccess, x.submittedAt, a.place,
      y.points, y.status == TaskSuccess, y.submittedAt, b.place,
      deadline, task.leaderboard);
  }

  ghost predicate NoBetterInputs(a: Inputs, b: Inputs) {
    && a.user == b.user && a.workflow == b.workflow && a.now == b.now
    && forall task :: NoBetterFacts(FactsOf(a, task), FactsOf(b, task))
  }

  /** No task, no group, no total and no mark of a is above that of b. */
  ghost predicate NoHigher(a: UserScores, b: UserScores) {
    && a.score <= b.score && a.maxScore == b.maxScore && a.finalMark <= b.finalMark && |a.groups| == |b.groups|
    && forall g :: 0 <= g < |a.groups| ==>
         && a.groups[g].score <= b.groups[g].score && |a.groups[g].tasks| == |b.groups[g].tasks|
         && forall i :: 0 <= i < |a.groups[g].tasks| ==>
              a.groups[g].tasks[i].task == b.groups[g].tasks[i].task && a.groups[g].tasks[i].score <= b.groups[g].tasks[i].score
  }

  lemma {:induction false} SumMonotone(a: seq<ScoredTask>, b: seq<ScoredTask>)
    requires |a| == |b| && forall i :: 0 <= i < |a| ==> a[i].score <= b[i].score
    ensures SumOfScores(a) <= SumOfScores(b)
  {
    if a != [] {
      SumMonotone(a[..|a| - 1], b[..|b| - 1]);
    }
  }

  lemma ShareMonotone(course: Course, group: TaskGroup, low: int, high: int)
    requires FairCourse(course) && low <= high
    ensures MarkShare(course, group, low) <= MarkShare(course, group, high)
  {
    var at := course.GetScoringGroup(group);
    if at.Some? {
      var scoringGroup := course.scoring.groups[at.value];
      assert scoringGroup in course.scoring.groups;
      ScaledShare(scoringGroup.weight, low, high, scoringGroup.maxScore);
    }
  }

  lemma ScaledShare(weight: real, low: int, high: int, max: int)
    requires 0.0 <= weight && low <= high
    ensures Share(weight, low, max) <= Share(weight, high, max)
  {
    if max > 0 {
      WeightedRises(weight, low, high);
      DivMonotone(Weighted(weight, low), Weighted(weight, high), max as real);
    }
  }

  lemma GroupMonotone(course: Course, a: Inputs, b: Inputs, group: TaskGroup)
    requires FairCourse(course) && group in course.assignments && NoBetterInputs(a, b)
    ensures var x, y := ScoreGroup(course, a, group), ScoreGroup(course, b, group);
            && x.score <= y.score && x.maxScore == y.maxScore && |x.tasks| == |y.tasks|
            && forall i :: 0 <= i < |x.tasks| ==> x.tasks[i].task == y.tasks[i].task && x.tasks[i].score <= y.tasks[i].score
  {
    var x, y := ScoreGroup(course, a, group), ScoreGroup(course, b, group);
    forall i | 0 <= i < |group.tasks|
      ensures x.tasks[i].score <= y.tasks[i].score
    {
      var task := group.tasks[i];
      assert task in group.tasks;
      TaskMonotone(a.workflow, a.now, RulesOf(course, group, a.user), task, group.deadline, FactsOf(a, task.task), FactsOf(b, task.task));
    }
    SumMonotone(x.tasks, y.tasks);
  }

  lemma {:induction false} ScoresMonotone(course: Course, a: Inputs, b: Inputs, assignments: seq<TaskGroup>)
    requires FairCourse(course) && NoBetterInputs(a, b)
    requires forall group :: group in assignments ==> group in course.assignments
    ensures NoHigher(ScoreAssignments(course, a, assignments), ScoreAssignments(course, b, assignments))
    decreases |assignments|
  {
    if assignments != [] {
      var group := assignments[|assignments| - 1];
      ScoresMonotone(course, a, b, assignments[..|assignments| - 1]);
      assert group in assignments;
      GroupMonotone(course, a, b, group);
      ShareMonotone(course, group, ScoreGroup(course, a, group).score, ScoreGroup(course, b, group).score);
    }
  }

  /**
   * b has every row a has that is not banned there: flags, overrides and places fixed.
   * It covers adding pipeline and merge request rows and lifting bans.
   */
  ghost predicate FewerRows(a: Inputs, b: Inputs) {
    && a.user == b.user && a.workflow == b.workflow && a.now == b.now
    && a.flags == b.flags && a.overrides == b.overrides
    && (forall row :: row in a.pipelines && row.id !in a.bans ==> row in b.pipelines && row.id !in b.bans)
    && (forall row :: row in a.requests && row.lastPipelineID !in a.bans ==> row in b.requests && row.lastPipelineID !in b.bans)
    && (forall task :: NoBetter(Lookup(a.places, task), Lookup(b.places, task)))
    && ValidPlaces(a) && ValidPlaces(b)
  }

  lemma FewerRowsNoBetter(a: Inputs, b: Inputs)
    requires FewerRows(a, b)
    ensures NoBetterInputs(a, b)
  {
    PipelineOrder();
    RequestOrder();
    forall task
      ensures NoBetterFacts(FactsOf(a, task), FactsOf(b, task))
    {
      BestImproves(a.pipelines, UnbannedPipeline(a.bans, task), b.pipelines, UnbannedPipeline(b.bans, task), PipelineLess);
      BestImproves(a.requests, UnbannedRequest(a.bans, task), b.requests, UnbannedRequest(b.bans, task), RequestBetter);
      assert NoBetter(Lookup(a.places, task), Lookup(b.places, task));
    }
  }

  /** More unbanned rows never lower a score: nothing shadows a green pipeline or a creditable merge. */
  lemma MoreRowsNeverLower(course: Course, a: Inputs, b: Inputs)
    requires FairCourse(course) && FewerRows(a, b)
    ensures NoHigher(UserScoresOf(course, a), UserScoresOf(course, b))
  {
    FewerRowsNoBetter(a, b);
    ScoresMonotone(course, a, b, course.assignments);
  }

  // Bounds

  ghost predicate FairRetake(rules: Rules) {
    rules.hasRetake ==> rules.retakePenalty <= 1.0
  }

  function BonusOf(task: Task): real {
    if task.leaderboard.Some? then task.leaderboard.value else 0.0
  }

  /** Points come from a success at the submission's time only. */
  lemma OutcomePoints(workflow: Option<MergeRequestsConfig>, now: Time, rules: Rules, task: Task, deadline: Time, facts: Facts)
    ensures var outcome := OutcomeOf(workflow, now, rules, task, deadline, facts);
            outcome.points == if outcome.status == TaskSuccess then ScorePipeline(rules, task.score, deadline, Success, outcome.submittedAt) else 0
  {
  }

  /** Whatever the rows, without an override a task scores between 0 and its score with the whole bonus. */
  lemma TaskBounded(workflow: Option<MergeRequestsConfig>, now: Time, rules: Rules, task: Task, deadline: Time, facts: Facts)
    requires rules.Fair() && FairTask(task) && FairRetake(rules) && ValidPlace(facts.place) && facts.override.None?
    ensures 0 <= ScoreTask(workflow, now, rules, task, deadline, facts).score <= Scale(task.score, 1.0 + BonusOf(task))
  {
    OutcomePoints(workflow, now, rules, task, deadline, facts);
    var outcome := OutcomeOf(workflow, now, rules, task, deadline, facts);
    FullScoreBounded(rules, task, deadline, facts.place, outcome.submittedAt);
    ScaleUp(task.score, 1.0 + BonusOf(task));
    if outcome.status == TaskSuccess {
      assert ScoreTask(workflow, now, rules, task, deadline, facts).score == FullScore(rules, task, deadline, facts.place, outcome.submittedAt);
    }
  }

  lemma NoBonusScale(score: int)
    ensures Scale(score, 1.0 + 0.0) == score
  {
    assert score as real * (1.0 + 0.0) == score as real;
    RoundWhole(score);
  }
}
