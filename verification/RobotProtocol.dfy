/**
 * The robot among students, reviewers and CI, as steps that interleave in any order:
 * iteration, syncProject, updateProject and updateBranch of internal/gitlab/merge_requests.go.
 * One project; within it a request has one number for its id and iid.
 */
module RobotProtocol {
  import opened Wrappers
  import opened Models
  import opened Selection
  import opened Branches
  import opened Database
  import opened Robot

  // gitlab

  datatype Request = Request(
    branch: string,
    state: RequestState,
    createdAt: Time,
    sha: string,
    detailedStatus: string,
    legacyStatus: string,
    userNotesCount: int,
    mergedBy: string,
    notes: seq<Note>,
    diff: Changes,
    pipelines: seq<CiPipeline>,
    mergedSha: Option<string>)

  datatype GitLab = GitLab(now: Time, branches: map<string, string>, requests: map<int, Request>)
  {
    predicate HasOpen(branch: string) {
      exists iid :: iid in requests && requests[iid].branch == branch && requests[iid].state == Opened
    }

    function Change(iid: int, request: Request): GitLab {
      this.(requests := requests[iid := request])
    }
  }

  /** What anybody but the robot can do. */
  datatype Event =
    | Wait(seconds: nat)
    | Push(branch: string, sha: string, diff: Changes)
    | DeleteBranch(branch: string)
    | OpenByHand(iid: int, branch: string, diff: Changes)
    | Comment(iid: int, resolvable: bool)
    | SetResolved(iid: int, at: nat, resolved: bool)
    | StartPipeline(iid: int, id: int, status: PipelineStatus)
    | SetPipelineStatus(iid: int, at: nat, status: PipelineStatus)
    | RecheckMergeStatus(iid: int, detailed: string, legacy: string)
    | MoveTarget(iid: int, diff: Changes)
    | Close(iid: int)
    | Reopen(iid: int)
    | MergeByHand(iid: int, login: string)

  function NewRequest(g: GitLab, branch: string, diff: Changes): Request
    requires branch in g.branches
  {
    Request(branch, Opened, g.now, g.branches[branch], "checking", "", 0, "", [], diff, [], None)
  }

  function MergedRequest(request: Request, login: string): Request {
    request.(state := Merged, mergedBy := login, mergedSha := Some(request.sha))
  }

  /** A push moves the open requests of the branch along. */
  function Pushed(request: Request, branch: string, sha: string, diff: Changes): Request {
    if request.branch == branch && request.state == Opened
    then request.(sha := sha, diff := diff, detailedStatus := "checking")
    else request
  }

  /** gitlab's rules: an event it does not allow changes nothing. */
  function React(g: GitLab, event: Event): GitLab {
    match event
    case Wait(seconds) => g.(now := g.now + seconds)
    case Push(branch, sha, diff) =>
      g.(branches := g.branches[branch := sha], requests := map iid | iid in g.requests :: Pushed(g.requests[iid], branch, sha, diff))
    case DeleteBranch(branch) => g.(branches := g.branches - {branch})
    case OpenByHand(iid, branch, diff) =>
      if iid in g.requests || branch !in g.branches || g.HasOpen(branch) then g else g.Change(iid, NewRequest(g, branch, diff))
    case Comment(iid, resolvable) =>
      if iid !in g.requests then g
      else
        var request := g.requests[iid];
        g.Change(iid, request.(notes := [Note(resolvable, false, Some(g.now))] + request.notes, userNotesCount := request.userNotesCount + 1))
    case SetResolved(iid, at, resolved) =>
      if iid !in g.requests || |g.requests[iid].notes| <= at then g
      else
        var request := g.requests[iid];
        g.Change(iid, request.(notes := request.notes[at := request.notes[at].(resolved := resolved)]))
    case StartPipeline(iid, id, status) =>
      if iid !in g.requests then g
      else g.Change(iid, g.requests[iid].(pipelines := [CiPipeline(id, status, Some(g.now))] + g.requests[iid].pipelines))
    case SetPipelineStatus(iid, at, status) =>
      if iid !in g.requests || |g.requests[iid].pipelines| <= at then g
      else
        var request := g.requests[iid];
        g.Change(iid, request.(pipelines := request.pipelines[at := request.pipelines[at].(status := status)]))
    case RecheckMergeStatus(iid, detailed, legacy) =>
      if iid !in g.requests then g else g.Change(iid, g.requests[iid].(detailedStatus := detailed, legacyStatus := legacy))
    case MoveTarget(iid, diff) =>
      if iid !in g.requests then g else g.Change(iid, g.requests[iid].(diff := diff))
    case Close(iid) =>
      if iid !in g.requests || g.requests[iid].state != Opened then g else g.Change(iid, g.requests[iid].(state := Closed))
    case Reopen(iid) =>
      if iid !in g.requests || g.requests[iid].state != Closed || g.requests[iid].branch !in g.branches || g.HasOpen(g.requests[iid].branch) then g
      else g.Change(iid, g.requests[iid].(state := Opened, sha := g.branches[g.requests[iid].branch]))
    case MergeByHand(iid, login) =>
      if iid !in g.requests || g.requests[iid].state != Opened then g else g.Change(iid, MergedRequest(g.requests[iid], login))
  }

  /** Notes and pipelines are listed newest first and nothing is from the future. */
  ghost predicate Sane(g: GitLab) {
    && 0 < g.now
    && forall iid :: iid in g.requests ==> SaneRequest(g.requests[iid], g.now)
  }

  ghost predicate SaneRequest(request: Request, now: Time) {
    && NewestFirst(request.notes) && request.createdAt <= now
    && (forall i :: 0 <= i < |request.notes| ==> request.notes[i].createdAt.value <= now)
    && (forall i :: 0 <= i < |request.pipelines| ==> request.pipelines[i].createdAt.Some? && 0 < request.pipelines[i].createdAt.value <= now)
  }

  lemma SaneAfterNote(request: Request, now: Time, resolvable: bool)
    requires SaneRequest(request, now) && 0 < now
    ensures SaneRequest(request.(notes := [Note(resolvable, false, Some(now))] + request.notes, userNotesCount := request.userNotesCount + 1), now)
  {
  }

  lemma SaneAfterPipeline(request: Request, now: Time, id: int, status: PipelineStatus)
    requires SaneRequest(request, now) && 0 < now
    ensures SaneRequest(request.(pipelines := [CiPipeline(id, status, Some(now))] + request.pipelines), now)
  {
  }

  lemma ChangeSane(g: GitLab, iid: int, request: Request)
    requires Sane(g) && SaneRequest(request, g.now)
    ensures Sane(g.Change(iid, request))
  {
  }

  predicate TouchesLists(event: Event) {
    event.Comment? || event.StartPipeline? || event.SetResolved? || event.SetPipelineStatus?
  }

  lemma ReactSane(g: GitLab, event: Event)
    requires Sane(g)
    ensures Sane(React(g, event))
  {
    if TouchesLists(event) {
      ReactListsSane(g, event);
    }
  }

  lemma ReactListsSane(g: GitLab, event: Event)
    requires Sane(g) && TouchesLists(event)
    ensures Sane(React(g, event))
  {
    match event
    case Comment(iid, resolvable) =>
      if iid in g.requests {
        SaneAfterNote(g.requests[iid], g.now, resolvable);
      }
    case StartPipeline(iid, id, status) =>
      if iid in g.requests {
        SaneAfterPipeline(g.requests[iid], g.now, id, status);
      }
    case SetResolved(iid, at, resolved) =>
      if iid in g.requests && at < |g.requests[iid].notes| {
        ChangeSane(g, iid, React(g, event).requests[iid]);
      }
    case SetPipelineStatus(iid, at, status) =>
      if iid in g.requests && at < |g.requests[iid].pipelines| {
        ChangeSane(g, iid, React(g, event).requests[iid]);
      }
  }

  /** No request disappears or changes its branch or creation time. */
  ghost predicate Persists(g: GitLab, h: GitLab) {
    && g.now <= h.now
    && forall iid :: iid in g.requests ==>
         iid in h.requests && h.requests[iid].branch == g.requests[iid].branch && h.requests[iid].createdAt == g.requests[iid].createdAt
  }

  lemma ReactPersists(g: GitLab, event: Event)
    ensures Persists(g, React(g, event))
  {
  }

  // The robot

  datatype Config = Config(project: string, reviewTtl: nat, robotLogin: string)

  datatype Listed = Listed(iid: int, request: Request)

  datatype Branch = Branch(name: string, head: string)

  /** The steps at which one sync read the parts of a request. */
  datatype Reads = Reads(listedAt: nat, notesAt: nat, changesAt: nat, pipelineAt: nat)

  /** How far the sync of the first request to do has come. */
  datatype Progress =
    | Nothing
    | GotNotes(notes: NotesInfo, notesAt: nat)
    | GotChanges(notes: NotesInfo, notesAt: nat, changes: ChangesInfo, changesAt: nat)
    | GotPipeline(notes: NotesInfo, notesAt: nat, changes: ChangesInfo, changesAt: nat, pipeline: PipelineInfo, pipelineAt: nat)

  /** listedAt is the step at which the current iteration listed the requests. */
  datatype Control =
    | Idle
    | Syncing(listedAt: nat, todo: seq<Listed>, progress: Progress)
    | Updating(listedAt: nat, cutoffAt: nat, cutoff: int, branches: Option<seq<Branch>>)

  /** rows is the merge request table; readAt only remembers where each row comes from. */
  datatype State = State(gitlab: GitLab, rows: map<int, MergeRequest>, readAt: map<int, Reads>, robot: Control, clock: nat)

  datatype Action =
    | Happens(event: Event)
    | ListRequests(listing: seq<Listed>)
    | ReadNotes
    | ReadChanges
    | ReadPipeline
    | Store
    | StartUpdate
    | ListBranches(found: seq<Branch>)
    | UpdateBranch(taskRows: seq<MergeRequest>, granted: bool, iid: int, diff: Changes)
    | GiveUp

  function RowOf(conf: Config, iid: int, listed: Request, notes: NotesInfo, changes: ChangesInfo, pipeline: PipelineInfo): MergeRequest {
    MergeRequest(
      iid, iid, listed.sha, conf.project, ParseTaskFromBranch(listed.branch), listed.state, listed.userNotesCount, listed.createdAt,
      NormalizeMergeStatus(listed.detailedStatus, listed.legacyStatus), listed.mergedBy,
      notes.hasUnresolvedNotes, notes.lastNoteCreatedAt,
      pipeline.id, pipeline.status, pipeline.createdAt, changes.extra, changes.empty)
  }

  /** A complete listing of the requests of submit branches. */
  ghost predicate ListsRequests(listing: seq<Listed>, g: GitLab) {
    && (forall l :: l in listing ==> l.iid in g.requests && g.requests[l.iid] == l.request && IsSubmitBranch(l.request.branch))
    && (forall iid :: iid in g.requests && IsSubmitBranch(g.requests[iid].branch) ==> Listed(iid, g.requests[iid]) in listing)
  }

  ghost predicate ListsBranches(listing: seq<Branch>, g: GitLab) {
    && (forall b :: b in listing <==> b.name in g.branches && g.branches[b.name] == b.head && IsSubmitBranch(b.name))
    && (forall i, j :: 0 <= i < j < |listing| ==> listing[i].name != listing[j].name)
  }

  /** The query for the rows of a task, ordered by id. */
  ghost predicate ListsTask(listing: seq<MergeRequest>, rows: map<int, MergeRequest>, task: string) {
    && (forall row :: row in listing <==> row in rows.Values && row.task == task)
    && StrictlySorted(listing, IdLess)
  }

  function DecisionOf(conf: Config, robot: Control, taskRows: seq<MergeRequest>): Decision
    requires robot.Updating? && robot.branches.Some? && robot.branches.value != []
  {
    Decide(BranchRequestsOf(taskRows), robot.branches.value[0].head, conf.reviewTtl, robot.cutoff)
  }

  /**
   * gitlab's answer to the robot's write. It may refuse anything; it never opens a second
   * request for a branch and never merges a head other than the given one.
   */
  ghost predicate Write(conf: Config, g: GitLab, branch: string, decision: Decision, granted: bool, iid: int, diff: Changes, h: GitLab) {
    if !granted then h == g
    else
      match decision
      case Leave => false
      case Create =>
        iid !in g.requests && branch in g.branches && !g.HasOpen(branch) && h == g.Change(iid, NewRequest(g, branch, diff))
      case Accept(target, sha) =>
        && target in g.requests && g.requests[target].state == Opened && g.requests[target].sha == sha
        && h == g.Change(target, MergedRequest(g.requests[target], conf.robotLogin))
  }

  ghost predicate Next(conf: Config, s: State, action: Action, t: State) {
    && t.clock == s.clock + 1
    && match action
       case Happens(event) => t == s.(gitlab := React(s.gitlab, event), clock := t.clock)
       case ListRequests(listing) =>
         && s.robot.Idle? && ListsRequests(listing, s.gitlab)
         && t == s.(robot := Syncing(s.clock, listing, Nothing), clock := t.clock)
       case ReadNotes =>
         && s.robot.Syncing? && s.robot.todo != [] && s.robot.progress.Nothing? && s.robot.todo[0].iid in s.gitlab.requests
         && t == s.(robot := s.robot.(progress := GotNotes(NotesInfoOf(s.gitlab.requests[s.robot.todo[0].iid].notes), s.clock)), clock := t.clock)
       case ReadChanges =>
         && s.robot.Syncing? && s.robot.todo != [] && s.robot.progress.GotNotes? && s.robot.todo[0].iid in s.gitlab.requests
         && var next := s.robot.todo[0];
            var info := ChangesInfoOf(s.gitlab.requests[next.iid].diff, ParseTaskFromBranch(next.request.branch));
            t == s.(robot := s.robot.(progress := GotChanges(s.robot.progress.notes, s.robot.progress.notesAt, info, s.clock)), clock := t.clock)
       case ReadPipeline =>
         && s.robot.Syncing? && s.robot.todo != [] && s.robot.progress.GotChanges? && s.robot.todo[0].iid in s.gitlab.requests
         && var p, info := s.robot.progress, LatestPipeline(s.gitlab.requests[s.robot.todo[0].iid].pipelines);
            t == s.(robot := s.robot.(progress := GotPipeline(p.notes, p.notesAt, p.changes, p.changesAt, info, s.clock)), clock := t.clock)
       case Store =>
         && s.robot.Syncing? && s.robot.todo != [] && s.robot.progress.GotPipeline?
         && var next, p := s.robot.todo[0], s.robot.progress;
            t == s.(
              rows := AfterUpsertMergeRequest(s.rows, RowOf(conf, next.iid, next.request, p.notes, p.changes, p.pipeline)),
              readAt := s.readAt[next.iid := Reads(s.robot.listedAt, p.notesAt, p.changesAt, p.pipelineAt)],
              robot := s.robot.(todo := s.robot.todo[1..], progress := Nothing),
              clock := t.clock)
       case StartUpdate =>
         && s.robot.Syncing? && s.robot.todo == []
         && t == s.(robot := Updating(s.robot.listedAt, s.clock, s.gitlab.now - conf.reviewTtl, None), clock := t.clock)
       case ListBranches(listing) =>
         && s.robot.Updating? && s.robot.branches.None? && ListsBranches(listing, s.gitlab)
         && t == s.(robot := s.robot.(branches := Some(listing)), clock := t.clock)
       case UpdateBranch(taskRows, granted, iid, diff) =>
         && s.robot.Updating? && s.robot.branches.Some? && s.robot.branches.value != []
         && var branch := s.robot.branches.value[0];
            && ListsTask(taskRows, s.rows, ParseTaskFromBranch(branch.name))
            && Write(conf, s.gitlab, branch.name, DecisionOf(conf, s.robot, taskRows), granted, iid, diff, t.gitlab)
            && t == s.(gitlab := t.gitlab, robot := s.robot.(branches := Some(s.robot.branches.value[1..])), clock := t.clock)
       case GiveUp =>
         t == s.(robot := Idle, clock := t.clock)
  }

  /** A row describes a known request of a submit branch. */
  ghost predicate KnownRow(conf: Config, iid: int, row: MergeRequest, g: GitLab) {
    && iid in g.requests && IsSubmitBranch(g.requests[iid].branch)
    && row.id == iid && row.iid == iid && row.project == conf.project
    && row.task == ParseTaskFromBranch(g.requests[iid].branch) && row.startedAt == g.requests[iid].createdAt
  }

  ghost predicate KnownRows(conf: Config, s: State) {
    forall iid :: iid in s.rows ==> KnownRow(conf, iid, s.rows[iid], s.gitlab)
  }

  /** Any sane gitlab and any table from earlier iterations. */
  ghost predicate Init(conf: Config, s: State) {
    s.clock == 0 && s.robot.Idle? && s.readAt == map[] && Sane(s.gitlab) && KnownRows(conf, s)
  }

  ghost predicate Step(conf: Config, run: seq<State>, actions: seq<Action>, i: nat)
    requires i < |actions| < |run|
  {
    Next(conf, run[i], actions[i], run[i + 1])
  }

  ghost predicate IsRun(conf: Config, run: seq<State>, actions: seq<Action>) {
    && |run| == |actions| + 1
    && Init(conf, run[0])
    && forall i :: 0 <= i < |actions| ==> Step(conf, run, actions, i)
  }

  lemma NextSane(conf: Config, s: State, action: Action, t: State)
    requires Sane(s.gitlab) && Next(conf, s, action, t)
    ensures Sane(t.gitlab) && Persists(s.gitlab, t.gitlab)
  {
    if action.Happens? {
      ReactSane(s.gitlab, action.event);
      ReactPersists(s.gitlab, action.event);
    }
  }

  lemma {:induction false} RunSane(conf: Config, run: seq<State>, actions: seq<Action>, i: nat)
    requires IsRun(conf, run, actions) && i < |run|
    ensures Sane(run[i].gitlab) && run[i].clock == i
  {
    if i > 0 {
      RunSane(conf, run, actions, i - 1);
      assert Step(conf, run, actions, i - 1);
      NextSane(conf, run[i - 1], actions[i - 1], run[i]);
    }
  }

  lemma {:induction false} RunPersists(conf: Config, run: seq<State>, actions: seq<Action>, i: nat, j: nat)
    requires IsRun(conf, run, actions) && i <= j < |run|
    ensures Persists(run[i].gitlab, run[j].gitlab)
    decreases j
  {
    if i < j {
      RunPersists(conf, run, actions, i, j - 1);
      RunSane(conf, run, actions, j - 1);
      assert Step(conf, run, actions, j - 1);
      NextSane(conf, run[j - 1], actions[j - 1], run[j]);
    }
  }
}
