/** The database rows and the deadlines file, as values. */
module Models {
  import opened Wrappers

  /** Seconds. 0 is Go's zero time: it means "not set", and nothing precedes it. */
  type Time = nat

  const ZERO_TIME: Time := 0

  datatype PipelineStatus =
    | Banned
    | Failed
    | Pending
    | Running
    | Success
    | Canceled
    | Unlisted(name: string)

  datatype Pipeline = Pipeline(id: int, project: string, task: string, status: PipelineStatus, startedAt: Time)

  datatype Flag = Flag(id: string, task: string, gitlabLogin: Option<string>, createdAt: Time)

  datatype RequestState = Opened | Closed | Merged | OtherState(name: string)

  const CAN_BE_MERGED := "can_be_merged"
  const CANNOT_BE_MERGED := "cannot_be_merged"

  datatype MergeRequest = MergeRequest(
    id: int,
    iid: int,
    sha: string,
    project: string,
    task: string,
    state: RequestState,
    userNotesCount: int,
    startedAt: Time,
    mergeStatus: string,
    mergeUserLogin: string,
    hasUnresolvedNotes: bool,
    lastNoteCreatedAt: Time,
    lastPipelineID: int,
    lastPipelineStatus: PipelineStatus,
    lastPipelineCreatedAt: Time,
    extraChanges: bool,
    noChanges: bool)

  datatype OverriddenScore = OverriddenScore(gitlabLogin: string, task: string, score: int, status: PipelineStatus)

  datatype OverrideKey = OverrideKey(login: string, task: string)

  datatype BenchmarkResult = BenchmarkResult(gitlabLogin: string, task: string, pipelineID: int, metric: real)

  datatype SubmissionBan = SubmissionBan(pipelineID: int, reason: string, adminLogin: string, createdAt: Time)

  /** project is the name derived from the repository; None until the repository exists. */
  datatype User = User(
    id: int,
    gitlabLogin: string,
    firstName: string,
    lastName: string,
    groupName: string,
    project: Option<string>,
    hasRetake: bool)
  {
    function ProjectName(): string {
      if project.Some? then project.value else ""
    }

    function FullName(): string {
      firstName + " " + lastName
    }
  }

  /** leaderboard holds the bonus of a benchmark task. */
  datatype Task = Task(task: string, score: int, crashme: bool, leaderboard: Option<real>)

  datatype TaskGroup = TaskGroup(title: string, group: string, deadline: Time, tasks: seq<Task>)

  datatype ScoringGroup = ScoringGroup(name: string, weight: real, maxScore: int, policy: string)

  datatype MergeRequestsConfig = MergeRequestsConfig(reviewTtl: int, robotLogin: string)
}
