/**
 * Which rows decide what a student sees of a task, against the tables of the documentation
 * and against what the robot does with the same rows.
 */
module StatusTable {
  import opened Wrappers
  import opened Models
  import opened Selection
  import opened TaskScore
  import opened Representative
  import opened Scorer
  import opened Robot

  predicate IsChecking(status: PipelineStatus) {
    status == Pending || status == Running
  }

  predicate IsFailed(status: PipelineStatus) {
    status == Failed || status == Canceled
  }

  /**
   * The pipeline that represents a task: the earliest green one; else the latest one under
   * way; else the latest failed one; banned ids never.
   */
  lemma PipelineChosen(pipelines: seq<Pipeline>, bans: set<int>, task: string, other: Pipeline)
    requires other in pipelines && UnbannedPipeline(bans, task)(other)
    ensures var best := BestPipeline(pipelines, bans, task);
            && best.Some? && best.value in pipelines && best.value.id !in bans && best.value.task == task
            && (other.status == Success ==> best.value.status == Success && best.value.startedAt <= other.startedAt)
            && (IsChecking(other.status) ==>
                  best.value.status == Success || (IsChecking(best.value.status) && other.startedAt <= best.value.startedAt))
            && (IsFailed(other.status) ==>
                  || best.value.status == Success || IsChecking(best.value.status)
                  || (IsFailed(best.value.status) && other.startedAt <= best.value.startedAt))
  {
    PipelineOrder();
    BestIsLeast(pipelines, UnbannedPipeline(bans, task), PipelineLess);
  }

  /**
   * A merged request is final: it is never shadowed, a creditable one is preferred and of
   * those the one with the earliest pipeline; a closed one shows only when all are closed.
   */
  lemma RequestChosen(requests: seq<MergeRequest>, bans: set<int>, task: string, other: MergeRequest)
    requires other in requests && UnbannedRequest(bans, task)(other)
    ensures var best := BestRequest(requests, bans, task);
            && best.Some? && best.value in requests && best.value.lastPipelineID !in bans && best.value.task == task
            && (other.state == Merged ==> best.value.state == Merged)
            && (other.state == Merged && IsCreditable(other) ==>
                  IsCreditable(best.value) && best.value.lastPipelineCreatedAt <= other.lastPipelineCreatedAt)
            && (best.value.state == Closed ==> other.state == Closed)
            && (best.value.state != Merged && other.state != Closed && other.lastPipelineStatus == Failed ==> best.value.lastPipelineStatus == Failed)
  {
    RequestOrder();
    BestIsLeast(requests, UnbannedRequest(bans, task), RequestBetter);
  }

  predicate IsOpen(request: MergeRequest) {
    request.state != Merged && request.state != Closed
  }

  predicate IsBroken(request: MergeRequest) {
    request.lastPipelineStatus == Failed || request.mergeStatus == CANNOT_BE_MERGED
  }

  /** Each status is shown under its own condition, and no points but for a green merge. */
  lemma RequestStatus(config: MergeRequestsConfig, now: Time, rules: Rules, taskScore: int, deadline: Time, info: RequestInfo)
    ensures var request, outcome := info.request, ScoreRequest(config, now, rules, taskScore, deadline, info);
            && (outcome.status == TaskSuccess <==> request.state == Merged && IsCreditable(request))
            && (outcome.status == TaskFailed <==>
                  || (request.state == Merged && !IsCreditable(request))
                  || (IsOpen(request) && (IsBroken(request) || (request.userNotesCount <= 0 && (request.noChanges || request.extraChanges)))))
            && (outcome.status == ReviewUnresolved <==>
                  IsOpen(request) && !IsBroken(request) && request.userNotesCount > 0 && request.hasUnresolvedNotes)
            && (outcome.status == ReviewResolved <==>
                  IsOpen(request) && !IsBroken(request) && request.userNotesCount > 0 && !request.hasUnresolvedNotes)
            && (outcome.status == ReviewPending <==>
                  request.state == Closed
                  || (IsOpen(request) && !IsBroken(request) && request.userNotesCount <= 0 && !request.noChanges && !request.extraChanges))
            && (outcome.status != TaskSuccess ==> outcome.points == 0)
  {
  }

  /** The documentation has an open request pending only when it is green; without comments any pipeline that has not failed will do. */
  lemma PendingWithoutGreen(config: MergeRequestsConfig, now: Time, rules: Rules)
    ensures var request := MergeRequest(1, 1, "sha", "project", "task", Opened, 0, 5, CAN_BE_MERGED, "", false, 0, 7, Running, 5, false, false);
            ScoreRequest(config, now, rules, 100, 10, RequestInfo(request, false)).status == ReviewPending
  {
  }

  /**
   * The documentation has every open request with changes outside its task, or with none,
   * shown as failed; the code does so exactly while it is broken or nobody has commented.
   */
  lemma WrongChangesShownFailed(config: MergeRequestsConfig, now: Time, rules: Rules, taskScore: int, deadline: Time, info: RequestInfo)
    requires IsOpen(info.request) && (info.request.extraChanges || info.request.noChanges)
    ensures ScoreRequest(config, now, rules, taskScore, deadline, info).status == TaskFailed
            <==> IsBroken(info.request) || info.request.userNotesCount <= 0
  {
    RequestStatus(config, now, rules, taskScore, deadline, info);
  }

  lemma CommentedExtraChanges(config: MergeRequestsConfig, now: Time, rules: Rules)
    ensures var request := MergeRequest(1, 1, "sha", "project", "task", Opened, 3, 5, CAN_BE_MERGED, "", true, 6, 7, Success, 5, true, false);
            ScoreRequest(config, now, rules, 100, 10, RequestInfo(request, true)).status == ReviewUnresolved
  {
  }

  ghost predicate ReadyAt(config: MergeRequestsConfig, requests: BranchRequests, at: int)
    requires requests.open.Some?
  {
    ReadyToMerge(requests, at - config.reviewTtl)
  }

  /** The announced wait is right: ready at the times after it and at no other. */
  ghost predicate ReadyAfter(config: MergeRequestsConfig, requests: BranchRequests, when: int)
    requires requests.open.Some?
  {
    forall at :: ReadyAt(config, requests, at) <==> when < at
  }

  /** With no wait announced the robot's next pass merges. */
  ghost predicate ReadyFromNow(config: MergeRequestsConfig, requests: BranchRequests, now: int)
    requires requests.open.Some?
  {
    forall at :: now < at ==> ReadyAt(config, requests, at)
  }

  /**
   * The wait shown for the open request of a task against the robot's test of all the task's
   * rows. Of a request that the robot would merge at some time, an announced wait is right
   * exactly when no request of the task has a review note later than both its own last note
   * and its own last pipeline; no wait is right exactly when the task's last note is old enough.
   */
  lemma AnnouncedWait(config: MergeRequestsConfig, now: Time, rows: seq<MergeRequest>, someday: int)
    requires config.reviewTtl != 0 && BranchRequestsOf(rows).open.Some? && ReadyAt(config, BranchRequestsOf(rows), someday)
    ensures var requests := BranchRequestsOf(rows);
            var open, wait := requests.open.value, TimeToMerge(config, now, requests.open.value);
            && !wait.Problem?
            && (wait.TimeLeft? ==>
                  && 0 < wait.seconds
                  && (ReadyAfter(config, requests, now + wait.seconds) <==>
                        requests.lastNoteCreatedAt <= open.lastNoteCreatedAt || requests.lastNoteCreatedAt <= open.lastPipelineCreatedAt))
            && (wait.NoMessage? ==> (ReadyFromNow(config, requests, now) <==> requests.lastNoteCreatedAt + config.reviewTtl <= now))
  {
    var requests := BranchRequestsOf(rows);
    var open := requests.open.value;
    BestIsLeast(rows, InState(Opened), Newer);
    LastNoteIsLast(rows);
    var last := if open.lastPipelineCreatedAt < requests.lastNoteCreatedAt then requests.lastNoteCreatedAt else open.lastPipelineCreatedAt;
    assert forall at :: ReadyAt(config, requests, at) <==> last + config.reviewTtl < at;
    assert ReadyAt(config, requests, last + config.reviewTtl + 1);
    assert ReadyAt(config, requests, now + 1) <==> last + config.reviewTtl < now + 1;
    var wait := TimeToMerge(config, now, open);
    if wait.TimeLeft? {
      assert ReadyAt(config, requests, now + wait.seconds + 1) <==> last + config.reviewTtl < now + wait.seconds + 1;
    }
  }

  function WaitingRequest(iid: int, state: RequestState, startedAt: Time, lastNoteCreatedAt: Time, lastPipelineCreatedAt: Time): MergeRequest {
    MergeRequest(iid, iid, "sha", "project", "task", state, 0, startedAt, CAN_BE_MERGED, "", false, lastNoteCreatedAt, iid, Success, lastPipelineCreatedAt, false, false)
  }

  /** A review note on a closed request of the task delays the merge by a whole minute more than announced. */
  lemma OlderRequestDelays()
    ensures var config := MergeRequestsConfig(60, "robot");
            var rows := [WaitingRequest(1, Closed, 10, 90, 10), WaitingRequest(2, Opened, 20, 0, 30)];
            var requests := BranchRequestsOf(rows);
            && requests.open == Some(rows[1]) && TimeToMerge(config, 80, rows[1]) == TimeLeft(10)
            && !ReadyAt(config, requests, 91) && !ReadyAt(config, requests, 150) && ReadyAt(config, requests, 151)
  {
    var closed, open := WaitingRequest(1, Closed, 10, 90, 10), WaitingRequest(2, Opened, 20, 0, 30);
    assert [closed, open][..1] == [closed] && [closed][..0] == [];
    assert Best([closed], InState(Opened), Newer) == None;
    assert LastNote([closed]) == 90;
  }
}
