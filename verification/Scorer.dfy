/** Task statuses, scores, group totals and the final mark: internal/scorer/scorer.go. */
module Scorer {
  import opened Wrappers
  import opened Models
  import opened GoMath
  import opened TaskScore
  import opened Deadlines
  import opened LeaderboardBuild
  import opened Representative

  datatype TaskStatus =
    | TaskAssigned
    | TaskBanned
    | TaskFailed
    | TaskChecking
    | TaskSuccess
    | ReviewPending
    | ReviewUnresolved
    | ReviewResolved

  function ClassifyPipelineStatus(status: PipelineStatus): TaskStatus {
    match status
    case Banned => TaskBanned
    case Failed => TaskFailed
    case Canceled => TaskFailed
    case Pending => TaskChecking
    case Running => TaskChecking
    case Success => TaskSuccess
    case Unlisted(_) => TaskAssigned
  }

  datatype Message = NoMessage | Problem(text: string) | TimeLeft(seconds: int)

  datatype ScoredTask = ScoredTask(
    task: string,
    status: TaskStatus,
    score: int,
    maxScore: int,
    overridden: bool,
    message: Message,
    hasReview: bool,
    rank: int)

  datatype ScoredTaskGroup = ScoredTaskGroup(title: string, deadline: Time, score: int, maxScore: int, tasks: seq<ScoredTask>)

  datatype UserScores = UserScores(groups: seq<ScoredTaskGroup>, score: int, maxScore: int, finalMark: real, user: User)

  /** Everything the database says about one student. places are the student's leaderboard places. */
  datatype Inputs = Inputs(
    user: User,
    workflow: Option<MergeRequestsConfig>,
    now: Time,
    pipelines: seq<Pipeline>,
    flags: seq<Flag>,
    requests: seq<MergeRequest>,
    overrides: seq<OverriddenScore>,
    bans: set<int>,
    places: map<string, Place>)

  /** What is left of it for one task. */
  datatype Facts = Facts(
    flag: Option<Flag>,
    request: Option<RequestInfo>,
    pipeline: Option<Pipeline>,
    place: Option<Place>,
    override: Option<OverriddenScore>)

  function FactsOf(inputs: Inputs, task: string): Facts {
    Facts(
      BestFlag(inputs.flags, task),
      RequestInfoOf(inputs.requests, inputs.bans, task),
      BestPipeline(inputs.pipelines, inputs.bans, task),
      Lookup(inputs.places, task),
      OverrideOf(inputs.overrides, inputs.user.gitlabLogin, task))
  }

  /** The last row of a (login, task) pair wins; the pair is unique in the table. */
  function OverrideOf(overrides: seq<OverriddenScore>, login: string, task: string): Option<OverriddenScore> {
    if overrides == [] then None
    else
      var last := overrides[|overrides| - 1];
      if last.gitlabLogin == login && last.task == task then Some(last)
      else OverrideOf(overrides[..|overrides| - 1], login, task)
  }

  function TimeToMerge(config: MergeRequestsConfig, now: Time, request: MergeRequest): Message {
    if config.reviewTtl == 0 then NoMessage
    else
      var last := if request.lastPipelineCreatedAt < request.lastNoteCreatedAt then request.lastNoteCreatedAt else request.lastPipelineCreatedAt;
      var left := last + config.reviewTtl - now;
      if left <= 0 then NoMessage else TimeLeft(left)
  }

  /** A task before the bonus and the override: submittedAt is the submission that scores it. */
  datatype Outcome = Outcome(status: TaskStatus, points: int, submittedAt: Time, message: Message, hasReview: bool)

  function ScoreRequest(config: MergeRequestsConfig, now: Time, rules: Rules, taskScore: int, deadline: Time, info: RequestInfo): Outcome {
    var request := info.request;
    var status := ClassifyRequest(request);
    var hasReview := info.hasUserNotes || (status == MERGED && request.mergeUserLogin != config.robotLogin);
    var outcome := (scored: TaskStatus, points: int, message: Message) =>
      Outcome(scored, points, request.lastPipelineCreatedAt, message, hasReview);
    if status == MERGED then
      if IsCreditable(request)
      then outcome(TaskSuccess, ScorePipeline(rules, taskScore, deadline, request.lastPipelineStatus, request.lastPipelineCreatedAt), NoMessage)
      else outcome(TaskFailed, 0, Problem("pipeline failed"))
    else if status == PIPELINE_FAILED then outcome(TaskFailed, 0, Problem("pipeline failed"))
    else if status == HAS_EXTRA_CHANGES then outcome(TaskFailed, 0, Problem("extra changes"))
    else if status == NO_CHANGES then outcome(TaskFailed, 0, Problem("no changes"))
    else if status == CANT_BE_MERGED then outcome(TaskFailed, 0, Problem("merge conflict"))
    else if status == ON_REVIEW then outcome(ReviewUnresolved, 0, NoMessage)
    else if status == REVIEW_RESOLVED then outcome(ReviewResolved, 0, TimeToMerge(config, now, request))
    else if status == PENDING then outcome(ReviewPending, 0, TimeToMerge(config, now, request))
    else outcome(ReviewPending, 0, NoMessage)
  }

  const UNSOLVED := Outcome(TaskAssigned, 0, ZERO_TIME, NoMessage, false)

  function OutcomeOf(workflow: Option<MergeRequestsConfig>, now: Time, rules: Rules, task: Task, deadline: Time, facts: Facts): Outcome {
    if facts.flag.Some? then
      var at := facts.flag.value.createdAt;
      Outcome(TaskSuccess, ScorePipeline(rules, task.score, deadline, Success, at), at, NoMessage, false)
    else if task.crashme then UNSOLVED
    else if workflow.Some? then
      if facts.request.Some? then ScoreRequest(workflow.value, now, rules, task.score, deadline, facts.request.value) else UNSOLVED
    else if facts.pipeline.Some? then
      var pipeline := facts.pipeline.value;
      Outcome(
        ClassifyPipelineStatus(pipeline.status),
        ScorePipeline(rules, task.score, deadline, pipeline.status, pipeline.startedAt),
        pipeline.startedAt, NoMessage, false)
    else UNSOLVED
  }

  function ScoreTask(workflow: Option<MergeRequestsConfig>, now: Time, rules: Rules, task: Task, deadline: Time, facts: Facts): ScoredTask {
    var outcome := OutcomeOf(workflow, now, rules, task, deadline, facts);
    var points := AddBonus(outcome.points, outcome.status == TaskSuccess, outcome.submittedAt, deadline, task.leaderboard, facts.place);
    var rank := if task.leaderboard.Some? && facts.place.Some? then facts.place.value.rank else 0;
    if facts.override.Some? then
      var override := facts.override.value;
      ScoredTask(task.task, ClassifyPipelineStatus(override.status), override.score, task.score, true, outcome.message, outcome.hasReview, rank)
    else
      ScoredTask(task.task, outcome.status, points, task.score, false, outcome.message, outcome.hasReview, rank)
  }

  function RulesOf(course: Course, group: TaskGroup, user: User): Rules {
    Rules(course.GetScoringPolicy(group), course.scoring.finalDeadline, course.scoring.retakePenalty, user.hasRetake)
  }

  function ScoreTaskOf(course: Course, inputs: Inputs, group: TaskGroup, task: Task): ScoredTask {
    ScoreTask(inputs.workflow, inputs.now, RulesOf(course, group, inputs.user), task, group.deadline, FactsOf(inputs, task.task))
  }

  function SumOfScores(tasks: seq<ScoredTask>): int {
    if tasks == [] then 0 else SumOfScores(tasks[..|tasks| - 1]) + tasks[|tasks| - 1].score
  }

  function ScoreGroup(course: Course, inputs: Inputs, group: TaskGroup): ScoredTaskGroup {
    var tasks := seq(|group.tasks|, i requires 0 <= i < |group.tasks| => ScoreTaskOf(course, inputs, group, group.tasks[i]));
    ScoredTaskGroup(group.title, group.deadline, SumOfScores(tasks), TasksTotal(group.tasks), tasks)
  }

  /** What a group with this total adds to the final mark. */
  function MarkShare(course: Course, group: TaskGroup, total: int): real {
    match course.GetScoringGroup(group)
    case None => 0.0
    case Some(at) =>
      Share(course.scoring.groups[at].weight, total, course.scoring.groups[at].maxScore)
  }

  function Share(weight: real, total: int, maxScore: int): real {
    if maxScore > 0 then Weighted(weight, total) / maxScore as real else 0.0
  }

  function Weighted(weight: real, total: int): real {
    weight * total as real
  }

  lemma WeightedRises(weight: real, low: int, high: int)
    requires 0.0 <= weight && low <= high
    ensures Weighted(weight, low) <= Weighted(weight, high)
  {
    MulMonotone(low as real, high as real, weight);
  }

  /** The student's scores over a prefix of the assignments. */
  function ScoreAssignments(course: Course, inputs: Inputs, assignments: seq<TaskGroup>): UserScores {
    if assignments == [] then UserScores([], 0, 0, 0.0, inputs.user)
    else
      var before := ScoreAssignments(course, inputs, assignments[..|assignments| - 1]);
      var group := assignments[|assignments| - 1];
      var scored := ScoreGroup(course, inputs, group);
      UserScores(
        before.groups + [scored],
        before.score + scored.score,
        before.maxScore + scored.maxScore,
        before.finalMark + MarkShare(course, group, scored.score),
        inputs.user)
  }

  function UserScoresOf(course: Course, inputs: Inputs): UserScores {
    ScoreAssignments(course, inputs, course.assignments)
  }

  method ParseOverrides(overrides: seq<OverriddenScore>) returns (byKey: map<OverrideKey, OverriddenScore>)
    ensures forall login, task ::
      OverrideOf(overrides, login, task) == (if OverrideKey(login, task) in byKey then Some(byKey[OverrideKey(login, task)]) else None)
  {
    byKey := map[];
    for i := 0 to |overrides|
      invariant forall login, task ::
        OverrideOf(overrides[..i], login, task) == (if OverrideKey(login, task) in byKey then Some(byKey[OverrideKey(login, task)]) else None)
    {
      assert overrides[..i + 1][..i] == overrides[..i];
      byKey := byKey[OverrideKey(overrides[i].gitlabLogin, overrides[i].task) := overrides[i]];
    }
    assert overrides[..|overrides|] == overrides;
  }

  /** The student's places on the boards. */
  ghost predicate PlacesOn(boards: map<string, TaskLeaderboard>, login: string, places: map<string, Place>)
    reads boards.Values
  {
    forall task :: Lookup(places, task) == if task in boards then boards[task].Placing(login) else None
  }

  /** The maps filled by the load functions. */
  datatype Loaded = Loaded(
    pipelines: map<string, Pipeline>,
    flags: map<string, Flag>,
    requests: map<string, RequestInfo>,
    overrides: map<OverrideKey, OverriddenScore>)
  {
    function At(login: string, task: string, place: Option<Place>): Facts {
      Facts(
        Lookup(flags, task), Lookup(requests, task), Lookup(pipelines, task), place,
        if OverrideKey(login, task) in overrides then Some(overrides[OverrideKey(login, task)]) else None)
    }

    ghost predicate For(inputs: Inputs) {
      forall task :: At(inputs.user.gitlabLogin, task, Lookup(inputs.places, task)) == FactsOf(inputs, task)
    }
  }

  method Load(ghost inputs: Inputs, pipelines: seq<Pipeline>, flags: seq<Flag>, requests: seq<MergeRequest>, overrides: seq<OverriddenScore>, bans: set<int>)
    returns (loaded: Loaded)
    requires inputs.pipelines == pipelines && inputs.flags == flags && inputs.requests == requests
    requires inputs.overrides == overrides && inputs.bans == bans
    ensures loaded.For(inputs)
  {
    var pipelinesByTask := LoadUserPipelines(pipelines, bans);
    var flagsByTask := LoadUserFlags(flags);
    var requestsByTask := LoadUserMergeRequests(requests, bans);
    var overridesByKey := ParseOverrides(overrides);
    loaded := Loaded(pipelinesByTask, flagsByTask, requestsByTask, overridesByKey);
    forall task
      ensures loaded.At(inputs.user.gitlabLogin, task, Lookup(inputs.places, task)) == FactsOf(inputs, task)
    {
      assert Lookup(flagsByTask, task) == BestFlag(flags, task);
      assert Lookup(requestsByTask, task) == RequestInfoOf(requests, bans, task);
      assert Lookup(pipelinesByTask, task) == BestPipeline(pipelines, bans, task);
    }
  }

  /** The submission part of the loop body below. */
  method ScoreSubmission(
    workflow: Option<MergeRequestsConfig>, now: Time, rules: Rules, task: Task, deadline: Time,
    loaded: Loaded, ghost facts: Facts)
    returns (scored: ScoredTask, submittedAt: Time)
    requires facts.flag == Lookup(loaded.flags, task.task)
    requires facts.request == Lookup(loaded.requests, task.task)
    requires facts.pipeline == Lookup(loaded.pipelines, task.task)
    ensures var outcome := OutcomeOf(workflow, now, rules, task, deadline, facts);
            && scored == ScoredTask(task.task, outcome.status, outcome.points, task.score, false, outcome.message, outcome.hasReview, 0)
            && submittedAt == outcome.submittedAt
  {
    scored := ScoredTask(task.task, TaskAssigned, 0, task.score, false, NoMessage, false, 0);
    submittedAt := ZERO_TIME;
    if task.task in loaded.flags {
      var flag := loaded.flags[task.task];
      submittedAt := flag.createdAt;
      scored := scored.(status := TaskSuccess, score := ScorePipeline(rules, task.score, deadline, Success, flag.createdAt));
    } else if task.crashme {
    } else if workflow.Some? {
      if task.task in loaded.requests {
        var info := loaded.requests[task.task];
        var outcome := ScoreRequest(workflow.value, now, rules, task.score, deadline, info);
        submittedAt := info.request.lastPipelineCreatedAt;
        scored := scored.(status := outcome.status, score := outcome.points, message := outcome.message, hasReview := outcome.hasReview);
      }
    } else if task.task in loaded.pipelines {
      var pipeline := loaded.pipelines[task.task];
      submittedAt := pipeline.startedAt;
      scored := scored.(
        status := ClassifyPipelineStatus(pipeline.status),
        score := ScorePipeline(rules, task.score, deadline, pipeline.status, pipeline.startedAt));
    }
  }

  /** The body of the loop over the tasks of a group. */
  method ScoreOneTask(
    workflow: Option<MergeRequestsConfig>, now: Time, rules: Rules, task: Task, deadline: Time,
    login: string, loaded: Loaded, boards: map<string, TaskLeaderboard>, ghost inputs: Inputs)
    returns (scored: ScoredTask)
    requires loaded.For(inputs) && PlacesOn(boards, login, inputs.places) && inputs.user.gitlabLogin == login
    ensures scored == ScoreTask(workflow, now, rules, task, deadline, FactsOf(inputs, task.task))
  {
    ghost var facts := loaded.At(login, task.task, Lookup(inputs.places, task.task));
    assert facts == FactsOf(inputs, task.task);
    var submittedAt;
    scored, submittedAt := ScoreSubmission(workflow, now, rules, task, deadline, loaded, facts);
    if task.leaderboard.Some? && task.task in boards {
      var board := boards[task.task];
      var rank := board.Rank(login);
      if rank.Some? {
        scored := scored.(rank := rank.value);
        if scored.status == TaskSuccess && submittedAt <= deadline {
          scored := scored.(score := LeaderboardScore(scored.score, task.leaderboard.value, Place(rank.value, |board.entries|)));
        }
      }
    }

    if OverrideKey(login, task.task) in loaded.overrides {
      var override := loaded.overrides[OverrideKey(login, task.task)];
      scored := scored.(score := override.score, status := ClassifyPipelineStatus(override.status), overridden := true);
    }
  }

  lemma SumStep(tasks: seq<ScoredTask>, i: nat)
    requires i < |tasks|
    ensures SumOfScores(tasks[..i + 1]) == SumOfScores(tasks[..i]) + tasks[i].score
  {
    assert tasks[..i + 1][..i] == tasks[..i];
  }

  /** The loop over the tasks of one group. */
  method ScoreOneGroup(
    course: Course, group: TaskGroup, user: User, workflow: Option<MergeRequestsConfig>, now: Time,
    loaded: Loaded, boards: map<string, TaskLeaderboard>, ghost inputs: Inputs)
    returns (scored: ScoredTaskGroup)
    requires loaded.For(inputs) && PlacesOn(boards, user.gitlabLogin, inputs.places)
    requires inputs.user == user && inputs.workflow == workflow && inputs.now == now
    ensures scored == ScoreGroup(course, inputs, group)
  {
    ghost var expected := ScoreGroup(course, inputs, group).tasks;
    var rules := RulesOf(course, group, user);
    var tasks := [];
    var totalScore, maxTotalScore := 0, 0;
    for i := 0 to |group.tasks|
      invariant tasks == expected[..i]
      invariant totalScore == SumOfScores(expected[..i])
      invariant maxTotalScore == TasksTotal(group.tasks[..i])
    {
      var task := group.tasks[i];
      var score := ScoreOneTask(workflow, now, rules, task, group.deadline, user.gitlabLogin, loaded, boards, inputs);
      assert score == expected[i];
      SumStep(expected, i);
      assert group.tasks[..i + 1][..i] == group.tasks[..i];
      tasks := tasks + [score];
      totalScore := totalScore + score.score;
      maxTotalScore := maxTotalScore + task.score;
    }
    assert expected[..|group.tasks|] == expected;
    assert group.tasks[..|group.tasks|] == group.tasks;
    scored := ScoredTaskGroup(group.title, group.deadline, totalScore, maxTotalScore, tasks);
  }

  lemma AssignmentsStep(course: Course, inputs: Inputs, g: nat)
    requires g < |course.assignments|
    ensures var before, group := ScoreAssignments(course, inputs, course.assignments[..g]), course.assignments[g];
            var scored := ScoreGroup(course, inputs, group);
            ScoreAssignments(course, inputs, course.assignments[..g + 1]) == UserScores(
              before.groups + [scored], before.score + scored.score, before.maxScore + scored.maxScore,
              before.finalMark + MarkShare(course, group, scored.score), inputs.user)
  {
    assert course.assignments[..g + 1][..g] == course.assignments[..g];
  }

  /** The loop over the groups. */
  method ScoreAllGroups(
    course: Course, user: User, workflow: Option<MergeRequestsConfig>, now: Time,
    loaded: Loaded, boards: map<string, TaskLeaderboard>, ghost inputs: Inputs)
    returns (scores: UserScores)
    requires loaded.For(inputs) && PlacesOn(boards, user.gitlabLogin, inputs.places)
    requires inputs.user == user && inputs.workflow == workflow && inputs.now == now
    ensures scores == UserScoresOf(course, inputs)
  {
    scores := UserScores([], 0, 0, 0.0, user);
    for g := 0 to |course.assignments|
      invariant scores == ScoreAssignments(course, inputs, course.assignments[..g])
    {
      var group := course.assignments[g];
      AssignmentsStep(course, inputs, g);
      var scored := ScoreOneGroup(course, group, user, workflow, now, loaded, boards, inputs);
      scores := UserScores(
        scores.groups + [scored],
        scores.score + scored.score,
        scores.maxScore + scored.maxScore,
        scores.finalMark + MarkShare(course, group, scored.score),
        user);
    }
    assert course.assignments[..|course.assignments|] == course.assignments;
  }

  /** places are those the boards give; the result depends on the boards through them only. */
  method CalcUserScoresImpl(
    course: Course, user: User, workflow: Option<MergeRequestsConfig>, now: Time,
    pipelines: seq<Pipeline>, flags: seq<Flag>, requests: seq<MergeRequest>, overrides: seq<OverriddenScore>,
    boards: map<string, TaskLeaderboard>, bans: set<int>, ghost places: map<string, Place>)
    returns (scores: UserScores)
    requires PlacesOn(boards, user.gitlabLogin, places)
    ensures scores == UserScoresOf(course, Inputs(user, workflow, now, pipelines, flags, requests, overrides, bans, places))
  {
    ghost var inputs := Inputs(user, workflow, now, pipelines, flags, requests, overrides, bans, places);
    var loaded := Load(inputs, pipelines, flags, requests, overrides, bans);
    scores := ScoreAllGroups(course, user, workflow, now, loaded, boards, inputs);
  }
}
