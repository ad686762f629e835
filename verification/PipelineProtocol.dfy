/**
 * The three writers of pipeline rows and the reports of new pipelines, as steps that
 * interleave in any order: fetchFreshPipelines, fetchAllPipelines and AddFresh of
 * internal/gitlab/pipelines.go, syncMergeRequest of internal/gitlab/merge_requests.go.
 */
module PipelineProtocol {
  import opened Wrappers
  import opened Models
  import opened Branches
  import opened Database
  import opened MergeRequestRefs

  // gitlab

  datatype GitPipeline = GitPipeline(project: string, ref: string, status: PipelineStatus, createdAt: Time)

  datatype GitRequest = GitRequest(project: string, iid: int, branch: string)

  datatype GitLab = GitLab(pipelines: map<int, GitPipeline>, requests: map<int, GitRequest>)

  ghost predicate UniqueIids(g: GitLab) {
    forall a, b :: a in g.requests && b in g.requests && g.requests[a].project == g.requests[b].project && g.requests[a].iid == g.requests[b].iid ==> a == b
  }

  /** Anything can change but what a pipeline ran on and where a request comes from. */
  ghost predicate Evolves(g: GitLab, h: GitLab) {
    && UniqueIids(h)
    && (forall id :: id in g.requests ==> id in h.requests && h.requests[id] == g.requests[id])
    && (forall id :: id in g.pipelines ==> SameRun(h, id, g.pipelines[id]))
  }

  ghost predicate SameRun(g: GitLab, id: int, pipeline: GitPipeline) {
    && id in g.pipelines
    && g.pipelines[id].project == pipeline.project && g.pipelines[id].ref == pipeline.ref && g.pipelines[id].createdAt == pipeline.createdAt
  }

  /** The pipeline runs on the ref of the request. */
  predicate RunsOnRequest(pipeline: GitPipeline, request: GitRequest) {
    pipeline.project == request.project && ParseMergeRequestRef(pipeline.ref) == Some(request.iid)
  }

  /** gitlab lists with a request the pipelines of its ref and of its branch. */
  predicate ListedWith(pipeline: GitPipeline, request: GitRequest) {
    RunsOnRequest(pipeline, request) || (pipeline.project == request.project && pipeline.ref == request.branch)
  }

  // The writers

  /** A reported pipeline. Its key in the fresh set is the address of the report. */
  datatype Report = Report(id: int, project: string)

  /** What gitlab answered at a step. */
  datatype Fetched = Fetched(id: int, pipeline: GitPipeline, fetchedAt: nat)

  /** The task found for it at a later step. */
  datatype Resolved = Resolved(got: Fetched, task: string, lookedAt: nat)

  datatype Visit = NoVisit | Visiting(key: nat, report: Report) | VisitFetched(key: nat, got: Fetched) | VisitResolved(key: nat, resolved: Resolved)

  datatype FreshPoll = Resting | Ranging(visited: set<nat>, removed: set<nat>, visit: Visit) | Deleting(removed: set<nat>)

  datatype FullPoll = FullIdle | FullListed(todo: seq<Fetched>) | FullResolved(resolved: Resolved, todo: seq<Fetched>)

  datatype Sync = SyncIdle | SyncRead(row: MergeRequest, pipeline: Option<Fetched>) | SyncStored(row: MergeRequest)

  datatype State = State(
    gitlab: GitLab,
    pipelines: map<int, Pipeline>,
    requests: map<int, MergeRequest>,
    reports: map<nat, Report>,
    nextKey: nat,
    poll: FreshPoll,
    full: FullPoll,
    sync: Sync,
    clock: nat)

  datatype Action =
    | Happens(gitlab: GitLab)
    | AddFresh(report: Report)
    // the fresh poll
    | StartFresh
    | Visit(key: nat)
    | FailVisit
    | FetchFresh
    | ResolveFresh
    | StoreFresh
    | EndRange
    | Delete(key: nat)
    | EndFresh
    // the full poll
    | ListFull(listing: seq<Fetched>)
    | ResolveFull
    | StoreFull(stored: bool)
    | EndFull
    // the sync of one request after another; what matters of a request never changes, so one step reads it all
    | ReadSync(row: MergeRequest, pipeline: Option<Fetched>)
    | StoreSyncPipeline
    | StoreSyncRequest
    | EndSync

  function RowOf(got: Fetched, task: string): Pipeline {
    Pipeline(got.id, got.pipeline.project, task, got.pipeline.status, got.pipeline.createdAt)
  }

  ghost function Resolve(s: State, got: Fetched): Resolved {
    Resolved(got, TaskOfRef(s.requests, got.pipeline.project, got.pipeline.ref), s.clock)
  }

  ghost predicate JustFetched(s: State, got: Fetched) {
    got.id in s.gitlab.pipelines && got.pipeline == s.gitlab.pipelines[got.id] && got.fetchedAt == s.clock
  }

  /** The row a sync makes of the listed request; its other columns do not matter here. */
  ghost predicate DescribesRequest(row: MergeRequest, g: GitLab) {
    && row.id in g.requests && IsSubmitBranch(g.requests[row.id].branch)
    && row.project == g.requests[row.id].project && row.iid == g.requests[row.id].iid
    && row.task == ParseTaskFromBranch(g.requests[row.id].branch)
  }

  predicate OfFresh(action: Action) {
    || action.StartFresh? || action.Visit? || action.FailVisit? || action.FetchFresh? || action.ResolveFresh?
    || action.StoreFresh? || action.EndRange? || action.Delete? || action.EndFresh?
  }

  predicate OfFull(action: Action) {
    action.ListFull? || action.ResolveFull? || action.StoreFull? || action.EndFull?
  }

  predicate OfSync(action: Action) {
    action.ReadSync? || action.StoreSyncPipeline? || action.StoreSyncRequest? || action.EndSync?
  }

  ghost predicate NextFresh(s: State, action: Action, t: State)
    requires OfFresh(action)
  {
    match action
    case StartFresh =>
      s.poll.Resting? && t == s.(poll := Ranging({}, {}, NoVisit), clock := t.clock)
    case Visit(key) =>
      && s.poll.Ranging? && s.poll.visit.NoVisit? && key in s.reports && key !in s.poll.visited
      && t == s.(poll := s.poll.(visited := s.poll.visited + {key}, visit := Visiting(key, s.reports[key])), clock := t.clock)
    case FailVisit =>
      s.poll.Ranging? && t == s.(poll := s.poll.(visit := NoVisit), clock := t.clock)
    case FetchFresh =>
      && s.poll.Ranging? && s.poll.visit.Visiting?
      && var report := s.poll.visit.report;
         && report.id in s.gitlab.pipelines && s.gitlab.pipelines[report.id].project == report.project
         && t == s.(poll := s.poll.(visit := VisitFetched(s.poll.visit.key, Fetched(report.id, s.gitlab.pipelines[report.id], s.clock))), clock := t.clock)
    case ResolveFresh =>
      && s.poll.Ranging? && s.poll.visit.VisitFetched?
      && t == s.(poll := s.poll.(visit := VisitResolved(s.poll.visit.key, Resolve(s, s.poll.visit.got))), clock := t.clock)
    case StoreFresh =>
      && s.poll.Ranging? && s.poll.visit.VisitResolved?
      && var visit := s.poll.visit;
         var removed := if visit.resolved.got.pipeline.status == Running then s.poll.removed else s.poll.removed + {visit.key};
         t == s.(
           pipelines := AfterAddPipeline(s.pipelines, RowOf(visit.resolved.got, visit.resolved.task)),
           poll := s.poll.(removed := removed, visit := NoVisit),
           clock := t.clock)
    case EndRange =>
      s.poll.Ranging? && s.poll.visit.NoVisit? && t == s.(poll := Deleting(s.poll.removed), clock := t.clock)
    case Delete(key) =>
      && s.poll.Deleting? && key in s.poll.removed
      && t == s.(reports := s.reports - {key}, poll := Deleting(s.poll.removed - {key}), clock := t.clock)
    case EndFresh =>
      s.poll == Deleting({}) && t == s.(poll := Resting, clock := t.clock)
  }

  ghost predicate NextFull(s: State, action: Action, t: State)
    requires OfFull(action)
  {
    match action
    case ListFull(listing) =>
      && s.full.FullIdle? && (forall got :: got in listing ==> JustFetched(s, got))
      && t == s.(full := FullListed(listing), clock := t.clock)
    case ResolveFull =>
      && s.full.FullListed? && s.full.todo != []
      && t == s.(full := FullResolved(Resolve(s, s.full.todo[0]), s.full.todo[1..]), clock := t.clock)
    case StoreFull(stored) =>
      && s.full.FullResolved?
      && var row := RowOf(s.full.resolved.got, s.full.resolved.task);
         t == s.(
           pipelines := if stored then AfterAddPipeline(s.pipelines, row) else s.pipelines,
           full := FullListed(s.full.todo),
           clock := t.clock)
    case EndFull =>
      t == s.(full := FullIdle, clock := t.clock)
  }

  ghost predicate NextSync(s: State, action: Action, t: State)
    requires OfSync(action)
  {
    match action
    case ReadSync(row, pipeline) =>
      && s.sync.SyncIdle? && DescribesRequest(row, s.gitlab)
      && (pipeline.Some? ==> JustFetched(s, pipeline.value) && ListedWith(pipeline.value.pipeline, s.gitlab.requests[row.id]))
      && t == s.(sync := SyncRead(row, pipeline), clock := t.clock)
    case StoreSyncPipeline =>
      && s.sync.SyncRead?
      && var pipelines := if s.sync.pipeline.None? then s.pipelines else AfterAddPipeline(s.pipelines, RowOf(s.sync.pipeline.value, s.sync.row.task));
         t == s.(pipelines := pipelines, sync := SyncStored(s.sync.row), clock := t.clock)
    case StoreSyncRequest =>
      && s.sync.SyncStored?
      && t == s.(requests := AfterUpsertMergeRequest(s.requests, s.sync.row), sync := SyncIdle, clock := t.clock)
    case EndSync =>
      t == s.(sync := SyncIdle, clock := t.clock)
  }

  ghost predicate NextOther(s: State, action: Action, t: State)
    requires action.Happens? || action.AddFresh?
  {
    match action
    case Happens(h) => Evolves(s.gitlab, h) && t == s.(gitlab := h, clock := t.clock)
    case AddFresh(report) => t == s.(reports := s.reports[s.nextKey := report], nextKey := s.nextKey + 1, clock := t.clock)
  }

  ghost predicate Next(s: State, action: Action, t: State) {
    && t.clock == s.clock + 1
    && if OfFresh(action) then NextFresh(s, action, t)
       else if OfFull(action) then NextFull(s, action, t)
       else if OfSync(action) then NextSync(s, action, t)
       else NextOther(s, action, t)
  }

  // What always holds

  /** The task of the request the pipeline ran for. */
  ghost predicate IsRequestTask(g: GitLab, pipeline: GitPipeline, task: string) {
    exists id :: id in g.requests && RunsOnRequest(pipeline, g.requests[id]) && IsSubmitBranch(g.requests[id].branch)
                 && task == ParseTaskFromBranch(g.requests[id].branch)
  }

  ghost predicate TaskFits(g: GitLab, pipeline: GitPipeline, task: string) {
    task == ParseTaskFromBranch(pipeline.ref) || IsRequestTask(g, pipeline, task)
  }

  ghost predicate KnownPipelines(s: State) {
    forall id :: id in s.pipelines ==>
      id in s.gitlab.pipelines && s.pipelines[id].id == id && s.pipelines[id].project == s.gitlab.pipelines[id].project
      && TaskFits(s.gitlab, s.gitlab.pipelines[id], s.pipelines[id].task)
  }

  ghost predicate KnownRequests(s: State) {
    forall id :: id in s.requests ==> s.requests[id].id == id && DescribesRequest(s.requests[id], s.gitlab)
  }

  ghost predicate Known(g: GitLab, got: Fetched) {
    SameRun(g, got.id, got.pipeline)
  }

  ghost predicate KnownTask(g: GitLab, resolved: Resolved) {
    Known(g, resolved.got) && TaskFits(g, resolved.got.pipeline, resolved.task)
  }

  ghost predicate KnownPoll(s: State) {
    s.poll.Ranging? ==>
      && (s.poll.visit.VisitFetched? ==> Known(s.gitlab, s.poll.visit.got))
      && (s.poll.visit.VisitResolved? ==> KnownTask(s.gitlab, s.poll.visit.resolved))
  }

  ghost predicate KnownFull(s: State) {
    && (!s.full.FullIdle? ==> forall got :: got in s.full.todo ==> Known(s.gitlab, got))
    && (s.full.FullResolved? ==> KnownTask(s.gitlab, s.full.resolved))
  }

  ghost predicate KnownSync(s: State) {
    && (!s.sync.SyncIdle? ==> DescribesRequest(s.sync.row, s.gitlab))
    && (s.sync.SyncRead? && s.sync.pipeline.Some? ==>
          Known(s.gitlab, s.sync.pipeline.value) && ListedWith(s.sync.pipeline.value.pipeline, s.gitlab.requests[s.sync.row.id]))
  }

  ghost predicate Inv(s: State) {
    UniqueIids(s.gitlab) && KnownPipelines(s) && KnownRequests(s) && KnownPoll(s) && KnownFull(s) && KnownSync(s)
  }

  /** Any gitlab, any tables that earlier runs may have left, and nobody at work. */
  ghost predicate Init(s: State) {
    && s.clock == 0 && s.poll.Resting? && s.full.FullIdle? && s.sync.SyncIdle?
    && UniqueIids(s.gitlab) && KnownPipelines(s) && KnownRequests(s)
    && (forall key :: key in s.reports ==> key < s.nextKey)
  }

  ghost predicate Step(run: seq<State>, actions: seq<Action>, i: nat)
    requires i < |actions| < |run|
  {
    Next(run[i], actions[i], run[i + 1])
  }

  ghost predicate IsRun(run: seq<State>, actions: seq<Action>) {
    && |run| == |actions| + 1 && Init(run[0])
    && forall i :: 0 <= i < |actions| ==> Step(run, actions, i)
  }

  lemma EvolvesFits(g: GitLab, h: GitLab, pipeline: GitPipeline, task: string)
    requires Evolves(g, h) && TaskFits(g, pipeline, task)
    ensures TaskFits(h, pipeline, task)
  {
    if IsRequestTask(g, pipeline, task) {
      var id :| id in g.requests && RunsOnRequest(pipeline, g.requests[id]) && IsSubmitBranch(g.requests[id].branch)
                && task == ParseTaskFromBranch(g.requests[id].branch);
      assert id in h.requests && RunsOnRequest(pipeline, h.requests[id]);
    }
  }

  /** Where a pipeline ran decides which tasks fit it. */
  lemma SameRunFits(g: GitLab, pipeline: GitPipeline, other: GitPipeline, task: string)
    requires TaskFits(g, pipeline, task) && other.project == pipeline.project && other.ref == pipeline.ref
    ensures TaskFits(g, other, task)
  {
    if IsRequestTask(g, pipeline, task) {
      var id :| id in g.requests && RunsOnRequest(pipeline, g.requests[id]) && IsSubmitBranch(g.requests[id].branch)
                && task == ParseTaskFromBranch(g.requests[id].branch);
      assert RunsOnRequest(other, g.requests[id]);
    }
  }

  /** A lookup gives the task of the request or the ref. */
  lemma ResolvedFits(s: State, got: Fetched)
    requires KnownRequests(s)
    ensures TaskFits(s.gitlab, got.pipeline, Resolve(s, got).task)
  {
    var iid := ParseMergeRequestRef(got.pipeline.ref);
    if iid.Some? && FindRequest(s.requests, got.pipeline.project, iid.value).Some? {
      var id :| IsFirst(s.requests, got.pipeline.project, iid.value, id) && s.requests[id] == FindRequest(s.requests, got.pipeline.project, iid.value).value;
      assert DescribesRequest(s.requests[id], s.gitlab);
      assert id in s.gitlab.requests && RunsOnRequest(got.pipeline, s.gitlab.requests[id]);
    }
  }

  lemma StoredKnown(s: State, got: Fetched, task: string, t: State)
    requires KnownPipelines(s) && Known(s.gitlab, got) && TaskFits(s.gitlab, got.pipeline, task)
    requires t.gitlab == s.gitlab && t.pipelines == AfterAddPipeline(s.pipelines, RowOf(got, task))
    ensures KnownPipelines(t)
  {
    SameRunFits(s.gitlab, got.pipeline, s.gitlab.pipelines[got.id], task);
  }

  lemma SyncFits(s: State)
    requires KnownSync(s) && s.sync.SyncRead? && s.sync.pipeline.Some?
    ensures TaskFits(s.gitlab, s.sync.pipeline.value.pipeline, s.sync.row.task)
  {
    var pipeline, request := s.sync.pipeline.value.pipeline, s.gitlab.requests[s.sync.row.id];
    if RunsOnRequest(pipeline, request) {
      assert IsRequestTask(s.gitlab, pipeline, s.sync.row.task);
    }
  }

  lemma FreshKnown(s: State, action: Action, t: State)
    requires Inv(s) && OfFresh(action) && NextFresh(s, action, t)
    ensures Inv(t)
  {
    if action.ResolveFresh? {
      ResolvedFits(s, s.poll.visit.got);
    } else if action.StoreFresh? {
      StoredKnown(s, s.poll.visit.resolved.got, s.poll.visit.resolved.task, t);
    }
  }

  lemma FullKnown(s: State, action: Action, t: State)
    requires Inv(s) && OfFull(action) && NextFull(s, action, t)
    ensures Inv(t)
  {
    if action.ResolveFull? {
      ResolvedFits(s, s.full.todo[0]);
    } else if action.StoreFull? && action.stored {
      StoredKnown(s, s.full.resolved.got, s.full.resolved.task, t);
    }
  }

  lemma SyncKnown(s: State, action: Action, t: State)
    requires Inv(s) && OfSync(action) && NextSync(s, action, t)
    ensures Inv(t)
  {
    if action.StoreSyncPipeline? && s.sync.pipeline.Some? {
      SyncFits(s);
      StoredKnown(s, s.sync.pipeline.value, s.sync.row.task, t);
    }
  }

  lemma NextKnown(s: State, action: Action, t: State)
    requires Inv(s) && Next(s, action, t)
    ensures Inv(t)
  {
    if OfFresh(action) {
      FreshKnown(s, action, t);
    } else if OfFull(action) {
      FullKnown(s, action, t);
    } else if OfSync(action) {
      SyncKnown(s, action, t);
    } else if action.Happens? {
      HappensKnown(s, action.gitlab, t);
    }
  }

  lemma HappensKnown(s: State, h: GitLab, t: State)
    requires Inv(s) && Evolves(s.gitlab, h) && t == s.(gitlab := h, clock := t.clock)
    ensures Inv(t)
  {
    forall id | id in s.pipelines
      ensures id in h.pipelines && t.pipelines[id].project == h.pipelines[id].project && TaskFits(h, h.pipelines[id], t.pipelines[id].task)
    {
      EvolvesFits(s.gitlab, h, s.gitlab.pipelines[id], s.pipelines[id].task);
      SameRunFits(h, s.gitlab.pipelines[id], h.pipelines[id], s.pipelines[id].task);
    }
    if s.poll.Ranging? && s.poll.visit.VisitResolved? {
      EvolvesFits(s.gitlab, h, s.poll.visit.resolved.got.pipeline, s.poll.visit.resolved.task);
    }
    if s.full.FullResolved? {
      EvolvesFits(s.gitlab, h, s.full.resolved.got.pipeline, s.full.resolved.task);
    }
  }

  lemma {:induction false} RunInv(run: seq<State>, actions: seq<Action>, i: nat)
    requires IsRun(run, actions) && i < |run|
    ensures Inv(run[i]) && run[i].clock == i
  {
    if i > 0 {
      RunInv(run, actions, i - 1);
      assert Step(run, actions, i - 1);
      NextKnown(run[i - 1], actions[i - 1], run[i]);
    }
  }
}
