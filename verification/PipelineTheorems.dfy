/** What the interleaved writers of pipeline rows guarantee over whole runs. */
module PipelineTheorems {
  import opened Wrappers
  import opened Models
  import opened Branches
  import opened MergeRequestRefs
  import opened PipelineProtocol

  // The task of a merge request pipeline

  predicate IsRequestPipeline(pipeline: GitPipeline) {
    ParseMergeRequestRef(pipeline.ref).Some?
  }

  /** The row of the request the pipeline ran for. */
  ghost predicate IsSynced(s: State, pipeline: GitPipeline, id: int) {
    IsRequestPipeline(pipeline) && id in s.requests && OfRequest(s.requests[id], pipeline.project, ParseMergeRequestRef(pipeline.ref).value)
  }

  lemma LookupFinds(s: State, pipeline: GitPipeline, id: int)
    requires KnownRequests(s) && UniqueIids(s.gitlab) && IsSynced(s, pipeline, id)
    ensures RequestTask(s.requests, pipeline.project, pipeline.ref) == Some(s.requests[id].task)
  {
    forall other | IsSynced(s, pipeline, other)
      ensures other == id
    {
      assert DescribesRequest(s.requests[other], s.gitlab) && DescribesRequest(s.requests[id], s.gitlab);
    }
    FoundRequest(s.requests, pipeline.project, ParseMergeRequestRef(pipeline.ref).value, id);
  }

  lemma LookupMisses(s: State, pipeline: GitPipeline)
    requires IsRequestPipeline(pipeline) && forall id :: !IsSynced(s, pipeline, id)
    ensures RequestTask(s.requests, pipeline.project, pipeline.ref) == Some("")
  {
    assert forall id :: IsFirst(s.requests, pipeline.project, ParseMergeRequestRef(pipeline.ref).value, id) ==> IsSynced(s, pipeline, id);
  }

  lemma FitsSynced(s: State, pipeline: GitPipeline, id: int, task: string)
    requires KnownRequests(s) && UniqueIids(s.gitlab) && IsSynced(s, pipeline, id) && TaskFits(s.gitlab, pipeline, task)
    ensures task == pipeline.ref || task == s.requests[id].task
  {
    RefIsNoBranch(pipeline.ref);
    if IsRequestTask(s.gitlab, pipeline, task) {
      var other :| other in s.gitlab.requests && RunsOnRequest(pipeline, s.gitlab.requests[other])
                   && task == ParseTaskFromBranch(s.gitlab.requests[other].branch);
      assert DescribesRequest(s.requests[id], s.gitlab) && other == id;
    }
  }

  /**
   * Whatever the interleaving, the row of a merge request pipeline holds its raw ref or the
   * task of its request; any other pipeline's row holds the task of its branch.
   */
  lemma RowTasks(run: seq<State>, actions: seq<Action>, i: nat, pipelineID: int)
    requires IsRun(run, actions) && i < |run| && pipelineID in run[i].pipelines
    ensures pipelineID in run[i].gitlab.pipelines
    ensures var s, pipeline, task := run[i], run[i].gitlab.pipelines[pipelineID], run[i].pipelines[pipelineID].task;
            if IsRequestPipeline(pipeline)
            then
              && (task == pipeline.ref || IsRequestTask(s.gitlab, pipeline, task))
              && (forall id :: IsSynced(s, pipeline, id) ==> task == pipeline.ref || task == s.requests[id].task)
            else task == ParseTaskFromBranch(pipeline.ref)
  {
    RunInv(run, actions, i);
    var s, pipeline, task := run[i], run[i].gitlab.pipelines[pipelineID], run[i].pipelines[pipelineID].task;
    if IsRequestPipeline(pipeline) {
      RefIsNoBranch(pipeline.ref);
      forall id | IsSynced(s, pipeline, id)
        ensures task == pipeline.ref || task == s.requests[id].task
      {
        FitsSynced(s, pipeline, id, task);
      }
    }
  }

  /** A row that the writers have made has the pipeline's project and creation time, whoever made it and whatever came after. */
  lemma {:induction false} RowStarts(run: seq<State>, actions: seq<Action>, i: nat, pipelineID: int)
    requires IsRun(run, actions) && i < |run| && pipelineID in run[i].pipelines && pipelineID !in run[0].pipelines
    ensures pipelineID in run[i].gitlab.pipelines
    ensures var row, pipeline := run[i].pipelines[pipelineID], run[i].gitlab.pipelines[pipelineID];
            row.id == pipelineID && row.project == pipeline.project && row.startedAt == pipeline.createdAt
  {
    RunInv(run, actions, i - 1);
    if pipelineID in run[i - 1].pipelines {
      RowStarts(run, actions, i - 1, pipelineID);
      RowKept(run, actions, i - 1, pipelineID);
    } else {
      RowMade(run, actions, i - 1, pipelineID);
    }
  }

  lemma RowKept(run: seq<State>, actions: seq<Action>, i: nat, pipelineID: int)
    requires IsRun(run, actions) && i < |actions| && pipelineID in run[i].pipelines && pipelineID in run[i].gitlab.pipelines
    ensures pipelineID in run[i + 1].pipelines && SameRun(run[i + 1].gitlab, pipelineID, run[i].gitlab.pipelines[pipelineID])
    ensures var was, now := run[i].pipelines[pipelineID], run[i + 1].pipelines[pipelineID];
            run[i].pipelines[pipelineID].id == pipelineID ==> now.id == pipelineID && now.project == was.project && now.startedAt == was.startedAt
  {
    assert Step(run, actions, i);
  }

  lemma RowMade(run: seq<State>, actions: seq<Action>, i: nat, pipelineID: int)
    requires IsRun(run, actions) && i < |actions| && Inv(run[i])
    requires pipelineID !in run[i].pipelines && pipelineID in run[i + 1].pipelines
    ensures pipelineID in run[i + 1].gitlab.pipelines
    ensures var row, pipeline := run[i + 1].pipelines[pipelineID], run[i + 1].gitlab.pipelines[pipelineID];
            row.id == pipelineID && row.project == pipeline.project && row.startedAt == pipeline.createdAt
  {
    assert Step(run, actions, i);
  }

  // Lookups

  ghost predicate ResolvedEarlier(run: seq<State>, i: nat, r: Resolved)
    requires i < |run|
  {
    r.lookedAt < i && r.task == TaskOfRef(run[r.lookedAt].requests, r.got.pipeline.project, r.got.pipeline.ref)
  }

  ghost predicate LookupsKnown(run: seq<State>, i: nat)
    requires i < |run|
  {
    && (run[i].poll.Ranging? && run[i].poll.visit.VisitResolved? ==> ResolvedEarlier(run, i, run[i].poll.visit.resolved))
    && (run[i].full.FullResolved? ==> ResolvedEarlier(run, i, run[i].full.resolved))
  }

  lemma {:induction false} RunLookups(run: seq<State>, actions: seq<Action>, i: nat)
    requires IsRun(run, actions) && i < |run|
    ensures LookupsKnown(run, i)
  {
    if i > 0 {
      RunLookups(run, actions, i - 1);
      RunInv(run, actions, i - 1);
      FreshLookup(run, actions, i - 1);
      FullLookup(run, actions, i - 1);
    }
  }

  lemma FreshLookup(run: seq<State>, actions: seq<Action>, i: nat)
    requires IsRun(run, actions) && i < |actions| && LookupsKnown(run, i) && run[i].clock == i
    ensures run[i + 1].poll.Ranging? && run[i + 1].poll.visit.VisitResolved? ==> ResolvedEarlier(run, i + 1, run[i + 1].poll.visit.resolved)
  {
    assert Step(run, actions, i);
    assert !actions[i].ResolveFresh? && run[i + 1].poll.Ranging? && run[i + 1].poll.visit.VisitResolved? ==> run[i + 1].poll == run[i].poll;
  }

  lemma FullLookup(run: seq<State>, actions: seq<Action>, i: nat)
    requires IsRun(run, actions) && i < |actions| && LookupsKnown(run, i) && run[i].clock == i
    ensures run[i + 1].full.FullResolved? ==> ResolvedEarlier(run, i + 1, run[i + 1].full.resolved)
  {
    assert Step(run, actions, i);
    assert !actions[i].ResolveFull? && run[i + 1].full.FullResolved? ==> run[i + 1].full == run[i].full;
  }

  /** The step writes what a poll has found. */
  ghost predicate StoresFound(s: State, action: Action, r: Resolved) {
    || (action.StoreFresh? && s.poll.Ranging? && s.poll.visit.VisitResolved? && s.poll.visit.resolved == r)
    || (action.StoreFull? && action.stored && s.full.FullResolved? && s.full.resolved == r)
  }

  /**
   * A poll stores the task of the request exactly when the request's row was there, with a
   * task, at the lookup; only a lookup from before that row can bring the raw ref back.
   */
  lemma LateLookup(run: seq<State>, actions: seq<Action>, i: nat, r: Resolved)
    requires IsRun(run, actions) && i < |actions| && StoresFound(run[i], actions[i], r) && IsRequestPipeline(r.got.pipeline)
    ensures r.lookedAt < i && r.got.id in run[i + 1].pipelines
    ensures var s, stored := run[r.lookedAt], run[i + 1].pipelines[r.got.id].task;
            && (forall id :: IsSynced(s, r.got.pipeline, id) && s.requests[id].task != "" ==> stored == s.requests[id].task)
            && ((forall id :: IsSynced(s, r.got.pipeline, id) ==> s.requests[id].task == "") ==> stored == r.got.pipeline.ref)
  {
    RunLookups(run, actions, i);
    RunInv(run, actions, r.lookedAt);
    assert Step(run, actions, i);
    RefIsNoBranch(r.got.pipeline.ref);
    var s := run[r.lookedAt];
    forall id | IsSynced(s, r.got.pipeline, id)
      ensures RequestTask(s.requests, r.got.pipeline.project, r.got.pipeline.ref) == Some(s.requests[id].task)
    {
      LookupFinds(s, r.got.pipeline, id);
    }
    if forall id :: !IsSynced(s, r.got.pipeline, id) {
      LookupMisses(s, r.got.pipeline);
    }
  }

  /** Every lookup in flight for the pipeline has found this task. */
  ghost predicate InFlightAgree(s: State, pipelineID: int, task: string) {
    && (s.poll.Ranging? && s.poll.visit.VisitResolved? && s.poll.visit.resolved.got.id == pipelineID ==> s.poll.visit.resolved.task == task)
    && (s.full.FullResolved? && s.full.resolved.got.id == pipelineID ==> s.full.resolved.task == task)
  }

  /** The row and every lookup in flight have the task of the request. */
  ghost predicate Settled(s: State, pipelineID: int, id: int) {
    && pipelineID in s.pipelines && pipelineID in s.gitlab.pipelines && IsSynced(s, s.gitlab.pipelines[pipelineID], id)
    && s.requests[id].task != "" && s.pipelines[pipelineID].task == s.requests[id].task
    && InFlightAgree(s, pipelineID, s.requests[id].task)
  }

  lemma SettledLookup(s: State, got: Fetched, pipelineID: int, id: int)
    requires Inv(s) && Settled(s, pipelineID, id) && Known(s.gitlab, got) && got.id == pipelineID
    ensures Resolve(s, got).task == s.requests[id].task
  {
    LookupFinds(s, got.pipeline, id);
  }

  lemma SettledSync(s: State, pipelineID: int, id: int)
    requires Inv(s) && Settled(s, pipelineID, id)
    requires s.sync.SyncRead? && s.sync.pipeline.Some? && s.sync.pipeline.value.id == pipelineID
    ensures s.sync.row.task == s.requests[id].task
  {
    var pipeline, request := s.sync.pipeline.value.pipeline, s.gitlab.requests[s.sync.row.id];
    assert pipeline.ref == s.gitlab.pipelines[pipelineID].ref;
    RefIsNoBranch(pipeline.ref);
    assert RunsOnRequest(pipeline, request);
    assert DescribesRequest(s.requests[id], s.gitlab);
    assert id == s.sync.row.id;
  }

  /** The row and the lookups of other steps are as before, or have found the task. */
  lemma SettledFresh(s: State, action: Action, t: State, pipelineID: int, id: int)
    requires Inv(s) && OfFresh(action) && NextFresh(s, action, t) && Settled(s, pipelineID, id)
    ensures Settled(t, pipelineID, id) && t.requests == s.requests
  {
    if action.ResolveFresh? && s.poll.visit.got.id == pipelineID {
      SettledLookup(s, s.poll.visit.got, pipelineID, id);
    }
  }

  lemma SettledFull(s: State, action: Action, t: State, pipelineID: int, id: int)
    requires Inv(s) && OfFull(action) && NextFull(s, action, t) && Settled(s, pipelineID, id)
    ensures Settled(t, pipelineID, id) && t.requests == s.requests
  {
    if action.ResolveFull? && s.full.todo[0].id == pipelineID {
      SettledLookup(s, s.full.todo[0], pipelineID, id);
    }
  }

  lemma SettledBySync(s: State, action: Action, t: State, pipelineID: int, id: int)
    requires Inv(s) && OfSync(action) && NextSync(s, action, t) && Settled(s, pipelineID, id)
    ensures Settled(t, pipelineID, id) && t.requests[id].task == s.requests[id].task
  {
    if action.StoreSyncPipeline? && s.sync.pipeline.Some? && s.sync.pipeline.value.id == pipelineID {
      SettledSync(s, pipelineID, id);
    }
  }

  lemma SettledStep(s: State, action: Action, t: State, pipelineID: int, id: int)
    requires Inv(s) && Next(s, action, t) && Settled(s, pipelineID, id)
    ensures Settled(t, pipelineID, id) && t.requests[id].task == s.requests[id].task
  {
    if OfFresh(action) {
      SettledFresh(s, action, t, pipelineID, id);
    } else if OfFull(action) {
      SettledFull(s, action, t, pipelineID, id);
    } else if OfSync(action) {
      SettledBySync(s, action, t, pipelineID, id);
    }
  }

  /** Once no older lookup is in flight the raw ref never comes back. */
  lemma {:induction false} NoRelapse(run: seq<State>, actions: seq<Action>, i: nat, j: nat, pipelineID: int, id: int)
    requires IsRun(run, actions) && i <= j < |run| && Settled(run[i], pipelineID, id)
    ensures Settled(run[j], pipelineID, id) && run[j].pipelines[pipelineID].task == run[i].requests[id].task
    decreases j
  {
    if i < j {
      NoRelapse(run, actions, i, j - 1, pipelineID, id);
      RunInv(run, actions, j - 1);
      assert Step(run, actions, j - 1);
      SettledStep(run[j - 1], actions[j - 1], run[j], pipelineID, id);
    }
  }

  // The target of an override

  /** A synced request of the project with this iid has this task. */
  ghost predicate SyncedWithTask(s: State, project: string, iid: int, task: string) {
    exists id :: id in s.requests && OfRequest(s.requests[id], project, iid) && s.requests[id].task == task
  }

  /**
   * Once the row of the request exists an override of the pipeline goes to the request's task
   * exactly if, while the pipeline's row has the raw ref, that task is not empty, and, once
   * the row has the task, the task reads as no ref or as that of a request with the same task.
   */
  lemma OverrideTarget(run: seq<State>, actions: seq<Action>, i: nat, pipelineID: int, id: int)
    requires IsRun(run, actions) && i < |run| && pipelineID in run[i].pipelines && pipelineID in run[i].gitlab.pipelines
    requires IsSynced(run[i], run[i].gitlab.pipelines[pipelineID], id)
    ensures var s, row, ref, task := run[i], run[i].pipelines[pipelineID], run[i].gitlab.pipelines[pipelineID].ref, run[i].requests[id].task;
            TargetTask(s.requests, row) == Some(task) <==>
              if row.task == ref then task != ""
              else ParseMergeRequestRef(task).None? || SyncedWithTask(s, row.project, ParseMergeRequestRef(task).value, task)
  {
    RunInv(run, actions, i);
    var s, pipeline := run[i], run[i].gitlab.pipelines[pipelineID];
    var row, task := s.pipelines[pipelineID], s.requests[id].task;
    FitsSynced(s, pipeline, id, row.task);
    LookupFinds(s, pipeline, id);
    if row.task != pipeline.ref && ParseMergeRequestRef(task).Some? {
      RefLikeTarget(s, row, task);
    }
  }

  lemma RefLikeTarget(s: State, row: Pipeline, task: string)
    requires KnownRequests(s) && UniqueIids(s.gitlab) && row.task == task && ParseMergeRequestRef(task).Some?
    ensures TargetTask(s.requests, row) == Some(task) <==> SyncedWithTask(s, row.project, ParseMergeRequestRef(task).value, task)
  {
    RefIsNoBranch(task);
    var asPipeline := GitPipeline(row.project, task, Running, 0);
    if other :| IsSynced(s, asPipeline, other) {
      LookupFinds(s, asPipeline, other);
      assert SyncedWithTask(s, row.project, ParseMergeRequestRef(task).value, s.requests[other].task);
      forall id | IsSynced(s, asPipeline, id)
        ensures s.requests[id].task == s.requests[other].task
      {
        LookupFinds(s, asPipeline, id);
      }
    } else {
      LookupMisses(s, asPipeline);
      assert forall id :: id in s.requests && OfRequest(s.requests[id], row.project, ParseMergeRequestRef(task).value) ==> IsSynced(s, asPipeline, id);
    }
  }

  lemma OverrideReachesTask(run: seq<State>, actions: seq<Action>, i: nat, pipelineID: int, id: int)
    requires IsRun(run, actions) && i < |run| && pipelineID in run[i].pipelines && pipelineID in run[i].gitlab.pipelines
    requires IsSynced(run[i], run[i].gitlab.pipelines[pipelineID], id)
    requires run[i].requests[id].task != "" && ParseMergeRequestRef(run[i].requests[id].task).None?
    ensures TargetTask(run[i].requests, run[i].pipelines[pipelineID]) == Some(run[i].requests[id].task)
  {
    OverrideTarget(run, actions, i, pipelineID, id);
  }

  /** A branch named after another request's ref: its override lands on that request's task. */
  lemma RefLikeTask(other: MergeRequest, row: Pipeline)
    requires other.id == 7 && other.iid == 7 && other.project == row.project && other.task == "sum"
    requires row.task == ParseTaskFromBranch(BRANCH_PREFIX + REF_PREFIX + "7" + HEAD)
    ensures TargetTask(map[7 := other], row) == Some("sum")
  {
    var task := REF_PREFIX + "7" + HEAD;
    assert task[0] == 'r';
    TaskOfSubmitBranch(task);
    assert BRANCH_PREFIX + task == BRANCH_PREFIX + REF_PREFIX + "7" + HEAD;
    assert "7"[..0] == "";
    assert ValueOf("7") == 7;
    RefParses("7", HEAD);
    FoundRequest(map[7 := other], row.project, 7, 7);
  }

  // Reports

  /** At step at the poll read the reported pipeline, in a status other than running. */
  ghost predicate ReadAt(run: seq<State>, at: nat, key: nat, status: PipelineStatus) {
    && at < |run| && key in run[at].reports && run[at].reports[key].id in run[at].gitlab.pipelines
    && run[at].gitlab.pipelines[run[at].reports[key].id].status == status && status != Running
  }

  /** At step at the poll stored the status for the report. */
  ghost predicate StoredAt(run: seq<State>, actions: seq<Action>, at: nat, key: nat, status: PipelineStatus) {
    && at < |actions| && at + 1 < |run| && actions[at].StoreFresh? && run[at].poll.Ranging? && run[at].poll.visit.VisitResolved?
    && run[at].poll.visit.key == key && key in run[at].reports
    && run[at].reports[key].id in run[at + 1].pipelines && run[at + 1].pipelines[run[at].reports[key].id].status == status
  }

  /** A poll read the report's pipeline while the report was there, and then stored it. */
  ghost predicate Finished(run: seq<State>, actions: seq<Action>, i: nat, key: nat) {
    exists readAt: nat, storedAt: nat, status ::
      readAt < storedAt < i && ReadAt(run, readAt, key, status) && StoredAt(run, actions, storedAt, key, status)
  }

  ghost predicate VisitKnown(run: seq<State>, i: nat)
    requires i < |run|
  {
    var s := run[i];
    s.poll.Ranging? ==>
      match s.poll.visit
      case NoVisit => true
      case Visiting(key, report) => key in s.reports && s.reports[key] == report
      case VisitFetched(key, got) => ReadFor(run, i, key, got)
      case VisitResolved(key, resolved) => ReadFor(run, i, key, resolved.got)
  }

  ghost predicate ReadFor(run: seq<State>, i: nat, key: nat, got: Fetched)
    requires i < |run|
  {
    && got.fetchedAt < i && key in run[i].reports && run[i].reports[key].id == got.id
    && key in run[got.fetchedAt].reports && run[got.fetchedAt].reports[key].id == got.id
    && got.id in run[got.fetchedAt].gitlab.pipelines && run[got.fetchedAt].gitlab.pipelines[got.id] == got.pipeline
  }

  function Removed(poll: FreshPoll): set<nat> {
    if poll.Resting? then {} else poll.removed
  }

  ghost predicate KeysGiven(s: State) {
    forall key :: key in s.reports ==> key < s.nextKey
  }

  ghost predicate ReportsKnown(run: seq<State>, actions: seq<Action>, i: nat)
    requires i < |run|
  {
    && VisitKnown(run, i)
    && KeysGiven(run[i])
    && (forall key :: key in Removed(run[i].poll) ==> Finished(run, actions, i, key))
  }

  lemma FinishedLater(run: seq<State>, actions: seq<Action>, i: nat, key: nat)
    requires Finished(run, actions, i, key)
    ensures Finished(run, actions, i + 1, key)
  {
  }

  lemma StoreFinishes(run: seq<State>, actions: seq<Action>, i: nat)
    requires IsRun(run, actions) && i < |actions| && actions[i].StoreFresh? && VisitKnown(run, i)
    requires run[i].poll.Ranging? && run[i].poll.visit.VisitResolved?
    ensures var visit := run[i].poll.visit;
            visit.resolved.got.pipeline.status != Running ==> Finished(run, actions, i + 1, visit.key)
  {
    assert Step(run, actions, i);
    var visit := run[i].poll.visit;
    var got := visit.resolved.got;
    if got.pipeline.status != Running {
      assert ReadAt(run, got.fetchedAt, visit.key, got.pipeline.status);
      assert StoredAt(run, actions, i, visit.key, got.pipeline.status);
    }
  }

  ghost predicate KeepsReport(s: State, t: State, key: nat) {
    key in s.reports && key in t.reports && t.reports[key] == s.reports[key]
  }

  /** Only a deletion of the poll takes a report away, and only a report adds one. */
  lemma ReportsChange(run: seq<State>, actions: seq<Action>, i: nat, key: nat)
    requires IsRun(run, actions) && i < |actions|
    ensures run[i].nextKey <= run[i + 1].nextKey
    ensures key in run[i].reports ==> KeepsReport(run[i], run[i + 1], key) || key in Removed(run[i].poll) || run[i].nextKey == key
    ensures key in run[i].reports && actions[i] != Action.Delete(key) ==> KeepsReport(run[i], run[i + 1], key) || run[i].nextKey == key
    ensures key in run[i + 1].reports ==> (key == run[i].nextKey && key < run[i + 1].nextKey) || KeepsReport(run[i], run[i + 1], key)
    ensures key in Removed(run[i + 1].poll) && key !in Removed(run[i].poll) ==>
              && actions[i].StoreFresh? && run[i].poll.Ranging? && run[i].poll.visit.VisitResolved?
              && key == run[i].poll.visit.key && run[i].poll.visit.resolved.got.pipeline.status != Running
  {
    assert Step(run, actions, i);
  }

  /** The address of a visit is taken from the set, which only the poll itself empties. */
  lemma VisitStep(run: seq<State>, actions: seq<Action>, i: nat)
    requires IsRun(run, actions) && i < |actions| && VisitKnown(run, i) && KeysGiven(run[i]) && run[i].clock == i
    ensures VisitKnown(run, i + 1)
  {
    var t := run[i + 1];
    assert Step(run, actions, i);
    if t.poll.Ranging? && !t.poll.visit.NoVisit? {
      ReportsChange(run, actions, i, t.poll.visit.key);
    }
  }

  lemma {:induction false} RunReports(run: seq<State>, actions: seq<Action>, i: nat)
    requires IsRun(run, actions) && i < |run|
    ensures ReportsKnown(run, actions, i)
  {
    if i > 0 {
      RunReports(run, actions, i - 1);
      RunInv(run, actions, i - 1);
      VisitStep(run, actions, i - 1);
      var s, t := run[i - 1], run[i];
      forall key | key in t.reports
        ensures key < t.nextKey
      {
        ReportsChange(run, actions, i - 1, key);
      }
      forall key | key in Removed(t.poll)
        ensures Finished(run, actions, i, key)
      {
        ReportsChange(run, actions, i - 1, key);
        if key in Removed(s.poll) {
          FinishedLater(run, actions, i - 1, key);
        } else {
          StoreFinishes(run, actions, i - 1);
        }
      }
    }
  }

  /** A report is gone only after a poll that read its pipeline and stored what it read. */
  lemma {:induction false} GoneIsFinished(run: seq<State>, actions: seq<Action>, i: nat, j: nat, key: nat)
    requires IsRun(run, actions) && i <= j < |run| && key in run[i].reports && key !in run[j].reports
    ensures Finished(run, actions, j, key)
    decreases j
  {
    if key !in run[j - 1].reports {
      GoneIsFinished(run, actions, i, j - 1, key);
    } else {
      RunReports(run, actions, j - 1);
      ReportsChange(run, actions, j - 1, key);
    }
    FinishedLater(run, actions, j - 1, key);
  }

  /** A key that has been given never comes to mean another report. */
  lemma {:induction false} ReportKept(run: seq<State>, actions: seq<Action>, i: nat, j: nat, key: nat)
    requires IsRun(run, actions) && i <= j < |run| && key < run[i].nextKey
    ensures key < run[j].nextKey
    ensures key in run[j].reports ==> key in run[i].reports && run[j].reports[key] == run[i].reports[key]
    decreases j
  {
    if i < j {
      ReportKept(run, actions, i, j - 1, key);
      ReportsChange(run, actions, j - 1, key);
    }
  }

  /**
   * No reported pipeline is lost: the entry of a report made at step i is there until a poll
   * has read the pipeline after the report and stored a status other than running, however
   * often the same pipeline is reported in between.
   */
  lemma NothingLost(run: seq<State>, actions: seq<Action>, i: nat, j: nat)
    requires IsRun(run, actions) && i < j < |run| && actions[i].AddFresh?
    requires run[i].nextKey !in run[j].reports
    ensures exists readAt: nat, storedAt: nat, status ::
      i < readAt < storedAt < j && ReadAt(run, readAt, run[i].nextKey, status) && StoredAt(run, actions, storedAt, run[i].nextKey, status)
      && run[readAt].reports[run[i].nextKey] == actions[i].report
  {
    var key := run[i].nextKey;
    assert Step(run, actions, i);
    GoneIsFinished(run, actions, i + 1, j, key);
    var readAt: nat, storedAt: nat, status :|
      readAt < storedAt < j && ReadAt(run, readAt, key, status) && StoredAt(run, actions, storedAt, key, status);
    if readAt <= i {
      RunReports(run, actions, readAt);
      ReportKept(run, actions, readAt, i, key);
    }
    ReportKept(run, actions, i + 1, readAt, key);
  }
}
