/**
 * The pipeline, flag or merge request that represents a task:
 * pipelineLess, mergeRequestBetter and the load functions of internal/scorer/scorer.go.
 */
module Representative {
  import opened Wrappers
  import opened Models
  import opened Selection

  function StatusRank(status: PipelineStatus): int {
    match status
    case Banned => 0
    case Failed => 2
    case Canceled => 2
    case Pending => 3
    case Running => 3
    case Success => 4
    case Unlisted(_) => 1
  }

  predicate PipelineLess(left: Pipeline, right: Pipeline) {
    if StatusRank(left.status) == StatusRank(right.status) then
      if left.status == Success then left.startedAt < right.startedAt
      else left.startedAt > right.startedAt
    else StatusRank(left.status) > StatusRank(right.status)
  }

  predicate FlagLess(left: Flag, right: Flag) {
    left.createdAt < right.createdAt
  }

  /** Higher is more actionable; a merged request is final. */
  const CLOSED := 0
  const PENDING := 1
  const ON_REVIEW := 2
  const REVIEW_RESOLVED := 3
  const CANT_BE_MERGED := 4
  const HAS_EXTRA_CHANGES := 5
  const NO_CHANGES := 6
  const PIPELINE_FAILED := 7
  const MERGED := 8

  function ClassifyRequest(request: MergeRequest): int {
    if request.state == Closed then CLOSED
    else if request.state == Merged then MERGED
    else if request.lastPipelineStatus == Failed then PIPELINE_FAILED
    else if request.mergeStatus == CANNOT_BE_MERGED then CANT_BE_MERGED
    else if request.userNotesCount > 0 && request.hasUnresolvedNotes then ON_REVIEW
    else if request.userNotesCount > 0 then REVIEW_RESOLVED
    else if request.noChanges then NO_CHANGES
    else if request.extraChanges then HAS_EXTRA_CHANGES
    else PENDING
  }

  predicate IsCreditable(request: MergeRequest) {
    request.lastPipelineStatus == Success && request.lastPipelineCreatedAt != ZERO_TIME
  }

  predicate RequestBetter(candidate: MergeRequest, current: MergeRequest) {
    if ClassifyRequest(candidate) != ClassifyRequest(current) then ClassifyRequest(candidate) > ClassifyRequest(current)
    else if ClassifyRequest(candidate) != MERGED then false
    else if IsCreditable(candidate) != IsCreditable(current) then IsCreditable(candidate)
    else IsCreditable(candidate) && candidate.lastPipelineCreatedAt < current.lastPipelineCreatedAt
  }

  function UnbannedPipeline(bans: set<int>, task: string): Pipeline -> bool {
    (pipeline: Pipeline) => pipeline.id !in bans && pipeline.task == task
  }

  function OfTask(task: string): Flag -> bool {
    (flag: Flag) => flag.task == task
  }

  function UnbannedRequest(bans: set<int>, task: string): MergeRequest -> bool {
    (request: MergeRequest) => request.lastPipelineID !in bans && request.task == task
  }

  function BestPipeline(pipelines: seq<Pipeline>, bans: set<int>, task: string): Option<Pipeline> {
    Best(pipelines, UnbannedPipeline(bans, task), PipelineLess)
  }

  function BestFlag(flags: seq<Flag>, task: string): Option<Flag> {
    Best(flags, OfTask(task), FlagLess)
  }

  function BestRequest(requests: seq<MergeRequest>, bans: set<int>, task: string): Option<MergeRequest> {
    Best(requests, UnbannedRequest(bans, task), RequestBetter)
  }

  predicate AnyUserNotes(requests: seq<MergeRequest>, bans: set<int>, task: string) {
    exists request :: request in requests && UnbannedRequest(bans, task)(request) && request.userNotesCount > 0
  }

  datatype RequestInfo = RequestInfo(request: MergeRequest, hasUserNotes: bool)

  function RequestInfoOf(requests: seq<MergeRequest>, bans: set<int>, task: string): Option<RequestInfo> {
    match BestRequest(requests, bans, task)
    case None => None
    case Some(request) => Some(RequestInfo(request, AnyUserNotes(requests, bans, task)))
  }

  lemma PipelineOrder()
    ensures StrictWeakOrder(PipelineLess)
  {
  }

  lemma FlagOrder()
    ensures StrictWeakOrder(FlagLess)
  {
  }

  lemma RequestOrder()
    ensures StrictWeakOrder(RequestBetter)
  {
  }

  function Lookup<V>(m: map<string, V>, key: string): Option<V> {
    if key in m then Some(m[key]) else None
  }

  /** Each task maps to its best pipeline so far. */
  ghost predicate PipelinesLoaded(byTask: map<string, Pipeline>, pipelines: seq<Pipeline>, bans: set<int>) {
    forall task :: Lookup(byTask, task) == BestPipeline(pipelines, bans, task)
  }

  ghost predicate FlagsLoaded(byTask: map<string, Flag>, flags: seq<Flag>) {
    forall task :: Lookup(byTask, task) == BestFlag(flags, task)
  }

  ghost predicate RequestsLoaded(byTask: map<string, RequestInfo>, requests: seq<MergeRequest>, bans: set<int>) {
    forall task :: Lookup(byTask, task) == RequestInfoOf(requests, bans, task)
  }

  function TakePipeline(byTask: map<string, Pipeline>, pipeline: Pipeline, bans: set<int>): map<string, Pipeline> {
    if pipeline.id !in bans && (pipeline.task !in byTask || PipelineLess(pipeline, byTask[pipeline.task]))
    then byTask[pipeline.task := pipeline]
    else byTask
  }

  lemma TakePipelineStep(byTask: map<string, Pipeline>, pipelines: seq<Pipeline>, i: nat, bans: set<int>)
    requires i < |pipelines| && PipelinesLoaded(byTask, pipelines[..i], bans)
    ensures PipelinesLoaded(TakePipeline(byTask, pipelines[i], bans), pipelines[..i + 1], bans)
  {
    forall task
      ensures Lookup(TakePipeline(byTask, pipelines[i], bans), task) == BestPipeline(pipelines[..i + 1], bans, task)
    {
      BestStep(pipelines, i, UnbannedPipeline(bans, task), PipelineLess);
      assert Lookup(byTask, task) == BestPipeline(pipelines[..i], bans, task);
    }
  }

  method LoadUserPipelines(pipelines: seq<Pipeline>, bans: set<int>) returns (byTask: map<string, Pipeline>)
    ensures PipelinesLoaded(byTask, pipelines, bans)
  {
    byTask := map[];
    for i := 0 to |pipelines|
      invariant PipelinesLoaded(byTask, pipelines[..i], bans)
    {
      TakePipelineStep(byTask, pipelines, i, bans);
      var pipeline := pipelines[i];
      if pipeline.id in bans {
        continue;
      }
      if pipeline.task !in byTask || PipelineLess(pipeline, byTask[pipeline.task]) {
        byTask := byTask[pipeline.task := pipeline];
      }
    }
    assert pipelines[..|pipelines|] == pipelines;
  }

  function TakeFlag(byTask: map<string, Flag>, flag: Flag): map<string, Flag> {
    if flag.task !in byTask || FlagLess(flag, byTask[flag.task]) then byTask[flag.task := flag] else byTask
  }

  lemma TakeFlagStep(byTask: map<string, Flag>, flags: seq<Flag>, i: nat)
    requires i < |flags| && FlagsLoaded(byTask, flags[..i])
    ensures FlagsLoaded(TakeFlag(byTask, flags[i]), flags[..i + 1])
  {
    forall task
      ensures Lookup(TakeFlag(byTask, flags[i]), task) == BestFlag(flags[..i + 1], task)
    {
      BestStep(flags, i, OfTask(task), FlagLess);
      assert Lookup(byTask, task) == BestFlag(flags[..i], task);
    }
  }

  method LoadUserFlags(flags: seq<Flag>) returns (byTask: map<string, Flag>)
    ensures FlagsLoaded(byTask, flags)
  {
    byTask := map[];
    for i := 0 to |flags|
      invariant FlagsLoaded(byTask, flags[..i])
    {
      TakeFlagStep(byTask, flags, i);
      var flag := flags[i];
      if flag.task !in byTask || FlagLess(flag, byTask[flag.task]) {
        byTask := byTask[flag.task := flag];
      }
    }
    assert flags[..|flags|] == flags;
  }

  function TakeRequest(byTask: map<string, RequestInfo>, request: MergeRequest, bans: set<int>): map<string, RequestInfo> {
    if request.lastPipelineID in bans then byTask
    else
      var info := if request.task in byTask then byTask[request.task] else RequestInfo(request, false);
      byTask[request.task := RequestInfo(
        if RequestBetter(request, info.request) then request else info.request,
        info.hasUserNotes || request.userNotesCount > 0)]
  }

  lemma TakeRequestStep(byTask: map<string, RequestInfo>, requests: seq<MergeRequest>, i: nat, bans: set<int>)
    requires i < |requests| && RequestsLoaded(byTask, requests[..i], bans)
    ensures RequestsLoaded(TakeRequest(byTask, requests[i], bans), requests[..i + 1], bans)
  {
    assert requests[..i + 1] == requests[..i] + [requests[i]];
    forall task
      ensures Lookup(TakeRequest(byTask, requests[i], bans), task) == RequestInfoOf(requests[..i + 1], bans, task)
    {
      BestStep(requests, i, UnbannedRequest(bans, task), RequestBetter);
      NoNotesWithoutRequests(requests[..i], bans, task);
      assert Lookup(byTask, task) == RequestInfoOf(requests[..i], bans, task);
    }
  }

  lemma NoNotesWithoutRequests(requests: seq<MergeRequest>, bans: set<int>, task: string)
    ensures BestRequest(requests, bans, task).None? ==> !AnyUserNotes(requests, bans, task)
  {
    RequestOrder();
    BestIsLeast(requests, UnbannedRequest(bans, task), RequestBetter);
  }

  method LoadUserMergeRequests(requests: seq<MergeRequest>, bans: set<int>) returns (byTask: map<string, RequestInfo>)
    ensures RequestsLoaded(byTask, requests, bans)
  {
    byTask := map[];
    for i := 0 to |requests|
      invariant RequestsLoaded(byTask, requests[..i], bans)
    {
      TakeRequestStep(byTask, requests, i, bans);
      var request := requests[i];
      if request.lastPipelineID in bans {
        continue;
      }
      var info := if request.task in byTask then byTask[request.task] else RequestInfo(request, false);
      if RequestBetter(request, info.request) {
        info := info.(request := request);
      }
      if request.userNotesCount > 0 {
        info := info.(hasUserNotes := true);
      }
      byTask := byTask[request.task := info];
    }
    assert requests[..|requests|] == requests;
  }

  /** Rows come ordered by id, so among equally good requests the lowest id represents the task. */
  lemma LowestIdRepresents(requests: seq<MergeRequest>, bans: set<int>, task: string, other: MergeRequest)
    requires forall i, j :: 0 <= i < j < |requests| ==> requests[i].id < requests[j].id
    requires other in requests && UnbannedRequest(bans, task)(other)
    ensures var best := BestRequest(requests, bans, task);
            && best.Some? && best.value in requests && UnbannedRequest(bans, task)(best.value)
            && (RequestBetter(best.value, other) || best.value.id <= other.id)
  {
    RequestOrder();
    BestIsLeast(requests, UnbannedRequest(bans, task), RequestBetter);
    var at := BestIsFirst(requests, UnbannedRequest(bans, task), RequestBetter);
    var j :| 0 <= j < |requests| && requests[j] == other;
  }
}
