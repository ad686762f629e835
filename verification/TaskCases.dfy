/**
 * What a student is shown for a task, read off the tables: each case of
 * internal/scorer/scorer.go:393-455 said without the scorer's own functions.
 */
module TaskCases {
  import opened Wrappers
  import opened Models
  import opened Selection
  import opened TaskScore
  import opened Deadlines
  import opened LeaderboardBuild
  import opened Representative
  import opened Scorer
  import opened FinalMark
  import opened Database
  import opened Standings
  import opened Places
  import opened Payments

  /** One task of one student: the tables, a built course, and where the task is in it. */
  datatype Slot = Slot(t: Tables, course: Course, workflow: Option<MergeRequestsConfig>, now: Time, user: User, g: nat, i: nat)
  {
    ghost predicate Valid() {
      && g < |course.assignments| && i < |course.assignments[g].tasks|
      && Build(course).0 == course
    }

    function Group(): TaskGroup
      requires g < |course.assignments|
    {
      course.assignments[g]
    }

    function Task(): Task
      requires g < |course.assignments| && i < |course.assignments[g].tasks|
    {
      course.assignments[g].tasks[i]
    }
  }

  /** What the scores say about the slot. */
  ghost predicate Shows(scores: UserScores, x: Slot, scored: ScoredTask) {
    && AreScoresOf(scores, x.t, x.course, x.workflow, x.now, x.user)
    && x.g < |scores.groups| && x.i < |scores.groups[x.g].tasks| && scored == scores.groups[x.g].tasks[x.i]
  }

  // Points of a green submission

  ghost predicate HasNoPolicy(x: Slot)
    requires x.Valid()
  {
    forall policy :: !HasPolicy(x.course.scoring, x.Group(), policy)
  }

  /** The group's policy, the course's final deadline and retake penalty, and whether the student has a retake. */
  ghost predicate PaysBase(x: Slot, at: Time, points: int)
    requires x.Valid()
  {
    var scoring, score := x.course.scoring, x.Task().score;
    if HasNoPolicy(x) then points == -1
    else exists policy, timely ::
      && HasPolicy(scoring, x.Group(), policy)
      && IsTimely(policy, scoring.finalDeadline, score, x.Group().deadline, at, timely)
      && IsBase(timely, score, scoring.retakePenalty, x.user.hasRetake, points)
  }

  /** The student's place on the task's board, by the tables. */
  ghost predicate OnBoard(x: Slot, place: Option<Place>)
    requires x.Valid()
  {
    if forall deadline: Time :: !IsBoardDeadline(x.course.assignments, x.Task().task, deadline) then place == None
    else exists deadline: Time ::
      && IsBoardDeadline(x.course.assignments, x.Task().task, deadline)
      && IsPlace(x.t, x.user.groupName, x.Task().task, deadline, x.user.gitlabLogin, place)
  }

  /** What a green submission pays: with the bonus for the place, if it was made by the group's deadline. */
  ghost predicate Earns(x: Slot, at: Time, points: int)
    requires x.Valid()
  {
    exists base, place ::
      PaysBase(x, at, base) && OnBoard(x, place) && ValidPlace(place) && IsTotal(base, x.Task().leaderboard, place, at <= x.Group().deadline, points)
  }

  lemma PolicyOf(x: Slot)
    requires x.Valid()
    ensures var policy := RulesOf(x.course, x.Group(), x.user).policy;
            if policy == None then HasNoPolicy(x) else HasPolicy(x.course.scoring, x.Group(), policy.value)
  {
    BuiltPolicy(x.course, x.Group());
  }

  lemma BasePaid(x: Slot, at: Time)
    requires x.Valid()
    ensures PaysBase(x, at, ScorePipeline(RulesOf(x.course, x.Group(), x.user), x.Task().score, x.Group().deadline, Success, at))
  {
    PolicyOf(x);
    var rules := RulesOf(x.course, x.Group(), x.user);
    if rules.policy.Some? {
      TimelyIs(rules, x.Task().score, x.Group().deadline, at);
      BaseIs(rules, x.Task().score, x.Group().deadline, at);
    }
  }

  lemma PlaceOnBoard(x: Slot, place: Option<Place>)
    requires x.Valid() && CountedPlace(x.t, x.course, x.user.groupName, x.Task().task, x.user.gitlabLogin, place)
    ensures OnBoard(x, place) && ValidPlace(place)
  {
    BoardDeadlineIs(x.course.assignments, x.Task().task);
    var deadline := BoardDeadline(x.course.assignments, x.Task().task);
    CountedPlaceUnique(x.t, x.course, x.user.groupName, x.Task().task, x.user.gitlabLogin, place, place);
    if deadline.Some? {
      var rows :| ListsBenchmarks(rows, x.t, x.user.groupName) && place == Leaderboard.PlaceOf(rows, x.Task().task, deadline.value, x.user.gitlabLogin);
      PlaceIs(rows, x.t, x.user.groupName, x.Task().task, deadline.value, x.user.gitlabLogin);
      assert IsBoardDeadline(x.course.assignments, x.Task().task, deadline.value);
    }
  }

  lemma EarnsIs(x: Slot, at: Time, place: Option<Place>)
    requires x.Valid() && CountedPlace(x.t, x.course, x.user.groupName, x.Task().task, x.user.gitlabLogin, place)
    ensures var base := ScorePipeline(RulesOf(x.course, x.Group(), x.user), x.Task().score, x.Group().deadline, Success, at);
            Earns(x, at, AddBonus(base, true, at, x.Group().deadline, x.Task().leaderboard, place))
  {
    BasePaid(x, at);
    PlaceOnBoard(x, place);
    var base := ScorePipeline(RulesOf(x.course, x.Group(), x.user), x.Task().score, x.Group().deadline, Success, at);
    TotalIs(base, x.Task().leaderboard, place, x.Group().deadline, at);
  }

  // Cases

  ghost predicate NotOverridden(x: Slot)
    requires x.Valid()
  {
    OverrideKey(x.user.gitlabLogin, x.Task().task) !in x.t.overrides
  }

  ghost predicate IsFlag(x: Slot, flag: Flag)
    requires x.Valid()
  {
    flag in x.t.flags.Values && flag.gitlabLogin == Some(x.user.gitlabLogin) && flag.task == x.Task().task
  }

  ghost predicate Unflagged(x: Slot)
    requires x.Valid()
  {
    forall flag :: !IsFlag(x, flag)
  }

  ghost predicate OfStudent(x: Slot, project: string) {
    project == if x.user.project == None then "" else x.user.project.value
  }

  /** An unbanned pipeline of the student's project for the task. */
  ghost predicate IsPipeline(x: Slot, p: Pipeline)
    requires x.Valid()
  {
    p in x.t.pipelines.Values && p.task == x.Task().task && p.id !in x.t.bans && OfStudent(x, p.project)
  }

  ghost predicate SomePipeline(x: Slot, status: PipelineStatus)
    requires x.Valid()
  {
    exists p :: IsPipeline(x, p) && p.status == status
  }

  /** A request of the student's project for the task whose last pipeline is not banned. */
  ghost predicate IsRequest(x: Slot, r: MergeRequest)
    requires x.Valid()
  {
    r in x.t.requests.Values && r.task == x.Task().task && r.lastPipelineID !in x.t.bans && OfStudent(x, r.project)
  }

  /** The loop's part in the scores: the slot's task from the rows of the tables. */
  lemma SlotOf(scores: UserScores, x: Slot) returns (inputs: Inputs)
    requires x.Valid() && AreScoresOf(scores, x.t, x.course, x.workflow, x.now, x.user)
    ensures Describes(inputs, x.t, x.course, x.workflow, x.now, x.user)
    ensures Shows(scores, x, ScoreTaskOf(x.course, inputs, x.Group(), x.Task()))
  {
    inputs :| Describes(inputs, x.t, x.course, x.workflow, x.now, x.user) && scores == UserScoresOf(x.course, inputs);
    ScoresGroups(x.course, inputs, x.course.assignments);
  }

  lemma BodyShows(workflow: Option<MergeRequestsConfig>, now: Time, rules: Rules, task: Task, deadline: Time, facts: Facts)
    ensures var scored := ScoreTask(workflow, now, rules, task, deadline, facts);
            && scored.task == task.task && scored.maxScore == task.score && (scored.overridden <==> facts.override != None)
            && scored.rank == (if task.leaderboard == None || facts.place == None then 0 else facts.place.value.rank)
            && (facts.override != None ==> scored.score == facts.override.value.score && ShownAs(facts.override.value.status, scored.status))
  {
  }

  /** What is there in every case: the task's name and score and, on a board, the rank. */
  lemma AlwaysShown(scores: UserScores, x: Slot, scored: ScoredTask)
    requires x.Valid() && Shows(scores, x, scored)
    ensures scored.task == x.Task().task && scored.maxScore == x.Task().score
    ensures scored.overridden <==> !NotOverridden(x)
    ensures exists place :: OnBoard(x, place) && scored.rank == if x.Task().leaderboard == None || place == None then 0 else place.value.rank
  {
    var inputs := SlotOf(scores, x);
    PlaceOnBoard(x, Lookup(inputs.places, x.Task().task));
    BodyShows(x.workflow, x.now, RulesOf(x.course, x.Group(), x.user), x.Task(), x.Group().deadline, FactsOf(inputs, x.Task().task));
  }

  /** An override is final: its score, and its status in the scorer's words. */
  lemma OverrideDecides(scores: UserScores, x: Slot, scored: ScoredTask)
    requires x.Valid() && !NotOverridden(x) && Shows(scores, x, scored)
    ensures var row := x.t.overrides[OverrideKey(x.user.gitlabLogin, x.Task().task)];
            scored.score == row.score && ShownAs(row.status, scored.status)
  {
    var inputs := SlotOf(scores, x);
  }

  ghost predicate ShownAs(status: PipelineStatus, shown: TaskStatus) {
    match status
    case Success => shown == TaskSuccess
    case Pending => shown == TaskChecking
    case Running => shown == TaskChecking
    case Failed => shown == TaskFailed
    case Canceled => shown == TaskFailed
    case Banned => shown == TaskBanned
    case Unlisted(_) => shown == TaskAssigned
  }

  /** A flag solves the task, whatever pipelines and requests say; the earliest one counts. */
  lemma FlagSolves(scores: UserScores, x: Slot, scored: ScoredTask, first: Flag)
    requires x.Valid() && NotOverridden(x) && Shows(scores, x, scored)
    requires IsFlag(x, first) && forall other :: IsFlag(x, other) ==> first.createdAt <= other.createdAt
    ensures scored.status == TaskSuccess && Earns(x, first.createdAt, scored.score)
  {
    var inputs := SlotOf(scores, x);
    var task := x.Task().task;
    FlagOrder();
    BestIsLeast(inputs.flags, OfTask(task), FlagLess);
    var flag := BestFlag(inputs.flags, task);
    assert first in inputs.flags && OfTask(task)(first);
    assert IsFlag(x, flag.value) && flag.value.createdAt == first.createdAt;
    EarnsIs(x, first.createdAt, Lookup(inputs.places, task));
  }

  lemma NoFlag(x: Slot, inputs: Inputs)
    requires x.Valid() && Unflagged(x) && Describes(inputs, x.t, x.course, x.workflow, x.now, x.user)
    ensures BestFlag(inputs.flags, x.Task().task) == None
  {
    FlagOrder();
    BestIsLeast(inputs.flags, OfTask(x.Task().task), FlagLess);
    forall flag
      ensures !(flag in inputs.flags && OfTask(x.Task().task)(flag))
    {
      assert !IsFlag(x, flag);
    }
  }

  /** Only a flag solves a crashme task. */
  lemma CrashmeWaits(scores: UserScores, x: Slot, scored: ScoredTask)
    requires x.Valid() && NotOverridden(x) && Shows(scores, x, scored)
    requires Unflagged(x) && x.Task().crashme
    ensures scored.status == TaskAssigned && scored.score == 0
  {
    var inputs := SlotOf(scores, x);
    NoFlag(x, inputs);
  }

  // The pipeline workflow

  /** The pipeline that represents the task. */
  lemma BestOfPipelines(x: Slot, inputs: Inputs) returns (best: Option<Pipeline>)
    requires x.Valid() && Describes(inputs, x.t, x.course, x.workflow, x.now, x.user)
    ensures best == BestPipeline(inputs.pipelines, inputs.bans, x.Task().task)
    ensures best == None <==> forall p :: !IsPipeline(x, p)
    ensures best != None ==> IsPipeline(x, best.value) && forall p :: IsPipeline(x, p) ==> !PipelineLess(p, best.value)
  {
    var keep := UnbannedPipeline(inputs.bans, x.Task().task);
    PipelineOrder();
    BestIsLeast(inputs.pipelines, keep, PipelineLess);
    best := BestPipeline(inputs.pipelines, inputs.bans, x.Task().task);
    assert forall p :: IsPipeline(x, p) <==> p in inputs.pipelines && keep(p);
  }

  /** The loop body with a pipeline, whatever the student's other rows. */
  lemma PipelineScored(now: Time, rules: Rules, task: Task, deadline: Time, facts: Facts)
    requires facts.flag == None && facts.override == None && !task.crashme
    ensures var scored := ScoreTask(None, now, rules, task, deadline, facts);
            if facts.pipeline == None then scored.status == TaskAssigned && scored.score == 0
            else
              var p := facts.pipeline.value;
              && ShownAs(p.status, scored.status) && (p.status != Success ==> scored.score == 0)
              && (p.status == Success ==>
                    scored.score == AddBonus(
                      ScorePipeline(rules, task.score, deadline, Success, p.startedAt), true, p.startedAt, deadline, task.leaderboard, facts.place))
  {
  }

  lemma PipelineCounts(x: Slot, inputs: Inputs, best: Option<Pipeline>)
    requires x.Valid() && Describes(inputs, x.t, x.course, x.workflow, x.now, x.user)
    requires NotOverridden(x) && Unflagged(x) && !x.Task().crashme && x.workflow == None
    requires best == BestPipeline(inputs.pipelines, inputs.bans, x.Task().task)
    ensures var scored := ScoreTaskOf(x.course, inputs, x.Group(), x.Task());
            if best == None then scored.status == TaskAssigned && scored.score == 0
            else
              && ShownAs(best.value.status, scored.status) && (best.value.status != Success ==> scored.score == 0)
              && (best.value.status == Success ==> Earns(x, best.value.startedAt, scored.score))
  {
    NoFlag(x, inputs);
    if best != None {
      EarnsIs(x, best.value.startedAt, Lookup(inputs.places, x.Task().task));
    }
    PipelineScored(x.now, RulesOf(x.course, x.Group(), x.user), x.Task(), x.Group().deadline, FactsOf(inputs, x.Task().task));
  }

  /** The task shows what the pipeline that represents it counts as. */
  lemma ShownPipeline(scores: UserScores, x: Slot, scored: ScoredTask) returns (best: Option<Pipeline>)
    requires x.Valid() && NotOverridden(x) && Shows(scores, x, scored)
    requires Unflagged(x) && !x.Task().crashme && x.workflow == None
    ensures best == None <==> forall p :: !IsPipeline(x, p)
    ensures best != None ==> IsPipeline(x, best.value) && forall p :: IsPipeline(x, p) ==> !PipelineLess(p, best.value)
    ensures if best == None then scored.status == TaskAssigned && scored.score == 0
            else
              && ShownAs(best.value.status, scored.status) && (best.value.status != Success ==> scored.score == 0)
              && (best.value.status == Success ==> Earns(x, best.value.startedAt, scored.score))
  {
    var inputs := SlotOf(scores, x);
    best := BestOfPipelines(x, inputs);
    PipelineCounts(x, inputs, best);
  }

  lemma GreenFirst(p: Pipeline, best: Pipeline)
    requires !PipelineLess(p, best) && p.status == Success
    ensures best.status == Success && best.startedAt <= p.startedAt
  {
  }

  /** The earliest green pipeline scores the task. */
  lemma GreenSolves(scores: UserScores, x: Slot, scored: ScoredTask, first: Pipeline)
    requires x.Valid() && NotOverridden(x) && Shows(scores, x, scored)
    requires Unflagged(x) && !x.Task().crashme && x.workflow == None
    requires IsPipeline(x, first) && first.status == Success
    requires forall other :: IsPipeline(x, other) && other.status == Success ==> first.startedAt <= other.startedAt
    ensures scored.status == TaskSuccess && Earns(x, first.startedAt, scored.score)
  {
    var best := ShownPipeline(scores, x, scored);
    GreenFirst(first, best.value);
  }

  /** What is shown of pipelines none of which is green. */
  ghost predicate IsStatus(x: Slot, status: TaskStatus)
    requires x.Valid()
  {
    status ==
      if SomePipeline(x, Pending) || SomePipeline(x, Running) then TaskChecking
      else if SomePipeline(x, Failed) || SomePipeline(x, Canceled) then TaskFailed
      else if SomePipeline(x, Banned) && forall name :: !SomePipeline(x, Unlisted(name)) then TaskBanned
      else TaskAssigned
  }

  lemma BestStatus(x: Slot, best: Pipeline, status: TaskStatus)
    requires x.Valid() && !SomePipeline(x, Success) && IsPipeline(x, best) && ShownAs(best.status, status)
    requires forall p :: IsPipeline(x, p) ==> !PipelineLess(p, best)
    ensures IsStatus(x, status)
  {
    assert SomePipeline(x, best.status);
    forall p | IsPipeline(x, p)
      ensures StatusRank(p.status) <= StatusRank(best.status)
    {
      assert !PipelineLess(p, best);
    }
  }

  /** Without a green pipeline there are no points: one under way shows before a failed one, and that before any other. */
  lemma NotGreen(scores: UserScores, x: Slot, scored: ScoredTask)
    requires x.Valid() && NotOverridden(x) && Shows(scores, x, scored)
    requires Unflagged(x) && !x.Task().crashme && x.workflow == None && !SomePipeline(x, Success)
    ensures scored.score == 0 && IsStatus(x, scored.status)
  {
    var best := ShownPipeline(scores, x, scored);
    if best != None {
      assert SomePipeline(x, best.value.status);
      BestStatus(x, best.value, scored.status);
    }
  }

  // The merge request workflow

  /** The request that represents the task. */
  lemma BestOfRequests(x: Slot, inputs: Inputs) returns (best: Option<MergeRequest>)
    requires x.Valid() && Describes(inputs, x.t, x.course, x.workflow, x.now, x.user) && x.workflow != None
    ensures best == BestRequest(inputs.requests, inputs.bans, x.Task().task)
    ensures best == None <==> forall r :: !IsRequest(x, r)
    ensures best != None ==> IsRequest(x, best.value) && forall r :: IsRequest(x, r) ==> !RequestBetter(r, best.value)
    ensures AnyUserNotes(inputs.requests, inputs.bans, x.Task().task) <==> exists r :: IsRequest(x, r) && r.userNotesCount > 0
  {
    var keep := UnbannedRequest(inputs.bans, x.Task().task);
    RequestOrder();
    BestIsLeast(inputs.requests, keep, RequestBetter);
    best := BestRequest(inputs.requests, inputs.bans, x.Task().task);
    assert forall r :: IsRequest(x, r) <==> r in inputs.requests && keep(r);
  }

  /** What is the matter with a request that is neither merged nor closed. */
  datatype Matter = PipelineFailed | NothingChanged | ChangesOutside | Conflict | ThreadsResolved | ThreadsOpen | Waiting

  /** A failed pipeline hides everything else, then a conflict, then comments, then the changes. */
  ghost predicate IsMatter(r: MergeRequest, matter: Matter) {
    && r.state != Merged && r.state != Closed
    && var failed, conflict, commented := r.lastPipelineStatus == Failed, r.mergeStatus == "cannot_be_merged", r.userNotesCount > 0;
       match matter
       case PipelineFailed => failed
       case Conflict => !failed && conflict
       case ThreadsOpen => !failed && !conflict && commented && r.hasUnresolvedNotes
       case ThreadsResolved => !failed && !conflict && commented && !r.hasUnresolvedNotes
       case NothingChanged => !failed && !conflict && !commented && r.noChanges
       case ChangesOutside => !failed && !conflict && !commented && !r.noChanges && r.extraChanges
       case Waiting => !failed && !conflict && !commented && !r.noChanges && !r.extraChanges
  }

  /** What is shown for it, and what the student is told. */
  ghost predicate TellsAbout(matter: Matter, scored: ScoredTask) {
    match matter
    case PipelineFailed => scored.status == TaskFailed && scored.message == Problem("pipeline failed")
    case NothingChanged => scored.status == TaskFailed && scored.message == Problem("no changes")
    case ChangesOutside => scored.status == TaskFailed && scored.message == Problem("extra changes")
    case Conflict => scored.status == TaskFailed && scored.message == Problem("merge conflict")
    case ThreadsResolved => scored.status == ReviewResolved && !scored.message.Problem?
    case ThreadsOpen => scored.status == ReviewUnresolved && scored.message == NoMessage
    case Waiting => scored.status == ReviewPending && !scored.message.Problem?
  }

  ghost predicate IsGreenMerge(r: MergeRequest) {
    r.state == Merged && r.lastPipelineStatus == Success && r.lastPipelineCreatedAt != 0
  }

  /** What a request that represents a task shows, but for the points of a green merge. */
  ghost predicate ShowsRequest(r: MergeRequest, scored: ScoredTask) {
    && (IsGreenMerge(r) ==> scored.status == TaskSuccess && scored.message == NoMessage)
    && (!IsGreenMerge(r) ==> scored.score == 0)
    && (r.state == Merged && !IsGreenMerge(r) ==> scored.status == TaskFailed && scored.message == Problem("pipeline failed"))
    && (r.state == Closed ==> scored.status == ReviewPending && scored.message == NoMessage)
    && (forall matter :: IsMatter(r, matter) ==> TellsAbout(matter, scored))
  }

  /** The loop body with a request, whatever the student's other rows. */
  lemma RequestScored(workflow: Option<MergeRequestsConfig>, now: Time, rules: Rules, task: Task, deadline: Time, facts: Facts)
    requires facts.flag == None && facts.override == None && !task.crashme && workflow != None && facts.request != None
    ensures var r, scored := facts.request.value.request, ScoreTask(workflow, now, rules, task, deadline, facts);
            && ShowsRequest(r, scored)
            && (scored.hasReview <==> facts.request.value.hasUserNotes || (r.state == Merged && r.mergeUserLogin != workflow.value.robotLogin))
            && (IsGreenMerge(r) ==>
                  var at := r.lastPipelineCreatedAt;
                  scored.score == AddBonus(ScorePipeline(rules, task.score, deadline, Success, at), true, at, deadline, task.leaderboard, facts.place))
  {
  }

  lemma RequestCounts(x: Slot, inputs: Inputs, best: MergeRequest)
    requires x.Valid() && Describes(inputs, x.t, x.course, x.workflow, x.now, x.user)
    requires NotOverridden(x) && Unflagged(x) && !x.Task().crashme && x.workflow != None
    requires Some(best) == BestRequest(inputs.requests, inputs.bans, x.Task().task)
    ensures var scored := ScoreTaskOf(x.course, inputs, x.Group(), x.Task());
            && ShowsRequest(best, scored) && (IsGreenMerge(best) ==> Earns(x, best.lastPipelineCreatedAt, scored.score))
            && (scored.hasReview <==>
                  AnyUserNotes(inputs.requests, inputs.bans, x.Task().task) || (best.state == Merged && best.mergeUserLogin != x.workflow.value.robotLogin))
  {
    NoFlag(x, inputs);
    EarnsIs(x, best.lastPipelineCreatedAt, Lookup(inputs.places, x.Task().task));
    var facts := FactsOf(inputs, x.Task().task);
    assert facts.request == Some(RequestInfo(best, AnyUserNotes(inputs.requests, inputs.bans, x.Task().task)));
    RequestScored(x.workflow, x.now, RulesOf(x.course, x.Group(), x.user), x.Task(), x.Group().deadline, facts);
  }

  /** The task shows what its representative counts as. */
  lemma RepresentedBy(scores: UserScores, x: Slot, scored: ScoredTask) returns (best: Option<MergeRequest>)
    requires x.Valid() && NotOverridden(x) && Shows(scores, x, scored)
    requires Unflagged(x) && !x.Task().crashme && x.workflow != None
    ensures best == None <==> forall r :: !IsRequest(x, r)
    ensures best != None ==> IsRequest(x, best.value) && ShowsRequest(best.value, scored)
    ensures best != None && IsGreenMerge(best.value) ==> Earns(x, best.value.lastPipelineCreatedAt, scored.score)
    ensures best != None ==> forall r :: IsRequest(x, r) ==> !RequestBetter(r, best.value)
    ensures best == None ==> scored.status == TaskAssigned && scored.score == 0 && !scored.hasReview
    ensures best != None ==> (scored.hasReview <==>
              || (exists r :: IsRequest(x, r) && r.userNotesCount > 0)
              || (best.value.state == Merged && best.value.mergeUserLogin != x.workflow.value.robotLogin))
  {
    var inputs := SlotOf(scores, x);
    best := BestOfRequests(x, inputs);
    if best == None {
      NoFlag(x, inputs);
    } else {
      RequestCounts(x, inputs, best.value);
    }
  }

  lemma GreenMergeFirst(r: MergeRequest, best: MergeRequest)
    requires !RequestBetter(r, best)
    ensures r.state == Merged ==> best.state == Merged
    ensures IsGreenMerge(r) ==> IsGreenMerge(best) && best.lastPipelineCreatedAt <= r.lastPipelineCreatedAt
  {
  }

  /** Of the requests merged with a green pipeline the one with the earliest pipeline scores the task. */
  lemma MergeSolves(scores: UserScores, x: Slot, scored: ScoredTask, first: MergeRequest)
    requires x.Valid() && NotOverridden(x) && Shows(scores, x, scored)
    requires Unflagged(x) && !x.Task().crashme && x.workflow != None
    requires IsRequest(x, first) && IsGreenMerge(first)
    requires forall r :: IsRequest(x, r) && IsGreenMerge(r) ==> first.lastPipelineCreatedAt <= r.lastPipelineCreatedAt
    ensures scored.status == TaskSuccess && Earns(x, first.lastPipelineCreatedAt, scored.score) && scored.message == NoMessage
  {
    var best := RepresentedBy(scores, x, scored);
    GreenMergeFirst(first, best.value);
  }

  /** Merged, but never with a green pipeline: failed. */
  lemma MergeWithoutCredit(scores: UserScores, x: Slot, scored: ScoredTask, merged: MergeRequest)
    requires x.Valid() && NotOverridden(x) && Shows(scores, x, scored)
    requires Unflagged(x) && !x.Task().crashme && x.workflow != None
    requires IsRequest(x, merged) && merged.state == Merged && forall r :: IsRequest(x, r) ==> !IsGreenMerge(r)
    ensures scored.status == TaskFailed && scored.score == 0 && scored.message == Problem("pipeline failed")
  {
    var best := RepresentedBy(scores, x, scored);
    GreenMergeFirst(merged, best.value);
  }

  /** How urgent a matter is: the request with the most urgent one represents the task. */
  function Urgency(matter: Matter): int {
    match matter
    case PipelineFailed => 7
    case NothingChanged => 6
    case ChangesOutside => 5
    case Conflict => 4
    case ThreadsResolved => 3
    case ThreadsOpen => 2
    case Waiting => 1
  }

  lemma AsUrgent(r: MergeRequest, best: MergeRequest, matter: Matter) returns (more: Matter)
    requires IsMatter(r, matter) && !RequestBetter(r, best) && best.state != Merged
    ensures IsMatter(best, more) && Urgency(matter) <= Urgency(more)
  {
    more :=
      if best.lastPipelineStatus == Failed then PipelineFailed
      else if best.mergeStatus == "cannot_be_merged" then Conflict
      else if best.userNotesCount > 0 then (if best.hasUnresolvedNotes then ThreadsOpen else ThreadsResolved)
      else if best.noChanges then NothingChanged
      else if best.extraChanges then ChangesOutside
      else Waiting;
  }

  /** Nothing merged: no points, and the most urgent matter of all requests that are not closed is shown. */
  lemma MostUrgent(scores: UserScores, x: Slot, scored: ScoredTask, r: MergeRequest, matter: Matter)
    requires x.Valid() && NotOverridden(x) && Shows(scores, x, scored)
    requires Unflagged(x) && !x.Task().crashme && x.workflow != None
    requires forall other :: IsRequest(x, other) ==> other.state != Merged
    requires IsRequest(x, r) && IsMatter(r, matter)
    requires forall other, less :: IsRequest(x, other) && IsMatter(other, less) ==> Urgency(less) <= Urgency(matter)
    ensures TellsAbout(matter, scored) && scored.score == 0
    ensures scored.hasReview <==> exists other :: IsRequest(x, other) && other.userNotesCount > 0
  {
    var best := RepresentedBy(scores, x, scored);
    var more := AsUrgent(r, best.value, matter);
  }

  /** Nothing but closed requests looks like one waiting for review, and no request like a task not begun. */
  lemma NothingOpen(scores: UserScores, x: Slot, scored: ScoredTask)
    requires x.Valid() && NotOverridden(x) && Shows(scores, x, scored)
    requires Unflagged(x) && !x.Task().crashme && x.workflow != None
    requires forall r :: IsRequest(x, r) ==> r.state == Closed
    ensures scored.score == 0
    ensures scored.status == if exists r :: IsRequest(x, r) then ReviewPending else TaskAssigned
  {
    var best := RepresentedBy(scores, x, scored);
  }
}
