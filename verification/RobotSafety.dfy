/** Every merge of the robot rests on evidence its iteration read from gitlab. */
module RobotSafety {
  import opened Wrappers
  import opened Models
  import opened Selection
  import opened Branches
  import opened Representative
  import opened Database
  import opened Robot
  import opened RobotProtocol

  /** The row is what gitlab showed at the four steps, all before upTo. */
  ghost predicate Faithful(conf: Config, run: seq<State>, iid: int, row: MergeRequest, r: Reads, upTo: nat) {
    && r.listedAt < r.notesAt < r.changesAt < r.pipelineAt < upTo <= |run|
    && iid in run[r.listedAt].gitlab.requests && iid in run[r.notesAt].gitlab.requests
    && iid in run[r.changesAt].gitlab.requests && iid in run[r.pipelineAt].gitlab.requests
    && var listed := run[r.listedAt].gitlab.requests[iid];
       row == RowOf(conf, iid, listed,
         NotesInfoOf(run[r.notesAt].gitlab.requests[iid].notes),
         ChangesInfoOf(run[r.changesAt].gitlab.requests[iid].diff, ParseTaskFromBranch(listed.branch)),
         LatestPipeline(run[r.pipelineAt].gitlab.requests[iid].pipelines))
  }

  /** The request has been synced since the listing. */
  ghost predicate Done(conf: Config, run: seq<State>, s: State, iid: int, listedAt: nat, upTo: nat) {
    && iid in s.rows && iid in s.readAt && s.readAt[iid].listedAt == listedAt
    && Faithful(conf, run, iid, s.rows[iid], s.readAt[iid], upTo)
  }

  /** The robot has been in one iteration since the listing, and knows no request that was not there. */
  ghost predicate OneIteration(run: seq<State>, i: nat)
    requires i < |run|
  {
    var s := run[i];
    !s.robot.Idle? ==>
      && s.robot.listedAt < i
      && (forall iid :: iid in s.rows ==> iid in run[s.robot.listedAt].gitlab.requests)
      && (forall k :: s.robot.listedAt < k <= i ==> !run[k].robot.Idle? && run[k].robot.listedAt == s.robot.listedAt)
  }

  ghost predicate ProgressKnown(run: seq<State>, i: nat, next: Listed, listedAt: nat, p: Progress)
    requires i < |run|
  {
    && (!p.Nothing? ==>
          && listedAt < p.notesAt < i && next.iid in run[p.notesAt].gitlab.requests
          && p.notes == NotesInfoOf(run[p.notesAt].gitlab.requests[next.iid].notes))
    && (p.GotChanges? || p.GotPipeline? ==>
          && p.notesAt < p.changesAt < i && next.iid in run[p.changesAt].gitlab.requests
          && p.changes == ChangesInfoOf(run[p.changesAt].gitlab.requests[next.iid].diff, ParseTaskFromBranch(next.request.branch)))
    && (p.GotPipeline? ==>
          && p.changesAt < p.pipelineAt < i && next.iid in run[p.pipelineAt].gitlab.requests
          && p.pipeline == LatestPipeline(run[p.pipelineAt].gitlab.requests[next.iid].pipelines))
  }

  ghost predicate SubmitRequest(g: GitLab, iid: int) {
    iid in g.requests && IsSubmitBranch(g.requests[iid].branch)
  }

  ghost predicate SyncKnown(conf: Config, run: seq<State>, i: nat)
    requires i < |run|
  {
    var s := run[i];
    s.robot.Syncing? && s.robot.listedAt < i ==>
      var g := run[s.robot.listedAt].gitlab;
      && (forall l :: l in s.robot.todo ==> SubmitRequest(g, l.iid) && g.requests[l.iid] == l.request)
      && (forall iid :: SubmitRequest(g, iid) ==> Listed(iid, g.requests[iid]) in s.robot.todo || Done(conf, run, s, iid, s.robot.listedAt, i))
      && (if s.robot.todo == [] then s.robot.progress.Nothing? else ProgressKnown(run, i, s.robot.todo[0], s.robot.listedAt, s.robot.progress))
  }

  ghost predicate UpdateKnown(conf: Config, run: seq<State>, i: nat)
    requires i < |run|
  {
    var s := run[i];
    s.robot.Updating? ==>
      && s.robot.listedAt < s.robot.cutoffAt < i
      && s.robot.cutoff == run[s.robot.cutoffAt].gitlab.now - conf.reviewTtl
      && (forall iid :: SubmitRequest(run[s.robot.listedAt].gitlab, iid) ==> Done(conf, run, s, iid, s.robot.listedAt, s.robot.cutoffAt))
  }

  ghost predicate Known(conf: Config, run: seq<State>, i: nat)
    requires i < |run|
  {
    KnownRows(conf, run[i]) && OneIteration(run, i) && SyncKnown(conf, run, i) && UpdateKnown(conf, run, i)
  }

  /** Storing one row, seen from the table: a faithful row of a listed request, and no other change. */
  ghost predicate StoresRow(conf: Config, run: seq<State>, i: nat, next: Listed)
    requires i + 1 < |run|
  {
    var s, t, iid := run[i], run[i + 1], next.iid;
    && s.robot.Syncing? && s.robot.todo != [] && s.robot.todo[0] == next && s.robot.listedAt < i
    && t.robot == s.robot.(todo := s.robot.todo[1..], progress := Nothing)
    && iid in t.rows && iid in t.readAt && t.readAt[iid].listedAt == s.robot.listedAt
    && Faithful(conf, run, iid, t.rows[iid], t.readAt[iid], i + 1)
    && SubmitRequest(run[s.robot.listedAt].gitlab, iid)
    && t.rows == s.rows[iid := t.rows[iid]] && t.readAt == s.readAt[iid := t.readAt[iid]]
    && t.gitlab == s.gitlab
  }

  lemma StoredRow(conf: Config, run: seq<State>, actions: seq<Action>, i: nat)
    requires IsRun(conf, run, actions) && i < |actions| && actions[i].Store?
    requires KnownRows(conf, run[i]) && OneIteration(run, i) && SyncKnown(conf, run, i)
    ensures run[i].robot.Syncing? && run[i].robot.todo != [] && StoresRow(conf, run, i, run[i].robot.todo[0])
  {
    var s, t := run[i], run[i + 1];
    assert Step(conf, run, actions, i);
    var next, p, l := s.robot.todo[0], s.robot.progress, s.robot.listedAt;
    assert next in s.robot.todo;
    RunPersists(conf, run, actions, l, i);
    assert next.iid in s.rows ==> KnownRow(conf, next.iid, s.rows[next.iid], s.gitlab);
    assert t.rows[next.iid] == RowOf(conf, next.iid, next.request, p.notes, p.changes, p.pipeline);
  }

  lemma StoreRows(conf: Config, run: seq<State>, actions: seq<Action>, i: nat, next: Listed)
    requires IsRun(conf, run, actions) && i < |actions| && KnownRows(conf, run[i]) && OneIteration(run, i) && StoresRow(conf, run, i, next)
    ensures KnownRows(conf, run[i + 1]) && OneIteration(run, i + 1)
  {
    RunPersists(conf, run, actions, run[i].robot.listedAt, i);
  }

  lemma StoreSync(conf: Config, run: seq<State>, i: nat, next: Listed)
    requires i + 1 < |run| && SyncKnown(conf, run, i) && StoresRow(conf, run, i, next)
    ensures SyncKnown(conf, run, i + 1)
  {
    var s, t, l := run[i], run[i + 1], run[i].robot.listedAt;
    assert s.robot.todo == [next] + t.robot.todo;
    forall iid | SubmitRequest(run[l].gitlab, iid)
      ensures Listed(iid, run[l].gitlab.requests[iid]) in t.robot.todo || Done(conf, run, t, iid, l, i + 1)
    {
      assert Listed(iid, run[l].gitlab.requests[iid]) in s.robot.todo || Done(conf, run, s, iid, l, i);
    }
  }

  lemma RowsStep(conf: Config, run: seq<State>, actions: seq<Action>, i: nat)
    requires IsRun(conf, run, actions) && i < |actions| && KnownRows(conf, run[i]) && !actions[i].Store?
    ensures KnownRows(conf, run[i + 1]) && run[i + 1].rows == run[i].rows && run[i + 1].readAt == run[i].readAt
    ensures OneIteration(run, i) ==> OneIteration(run, i + 1)
  {
    assert Step(conf, run, actions, i);
    RunSane(conf, run, actions, i);
    NextSane(conf, run[i], actions[i], run[i + 1]);
  }

  /** Steps that leave the table and the sync as they are. */
  lemma OtherStep(conf: Config, run: seq<State>, actions: seq<Action>, i: nat)
    requires IsRun(conf, run, actions) && i < |actions| && OneIteration(run, i) && SyncKnown(conf, run, i) && UpdateKnown(conf, run, i)
    requires actions[i].Happens? || actions[i].ListBranches? || actions[i].UpdateBranch? || actions[i].GiveUp?
    ensures SyncKnown(conf, run, i + 1) && UpdateKnown(conf, run, i + 1)
  {
    assert Step(conf, run, actions, i);
  }

  lemma TurnStep(conf: Config, run: seq<State>, actions: seq<Action>, i: nat)
    requires IsRun(conf, run, actions) && i < |actions| && OneIteration(run, i) && SyncKnown(conf, run, i)
    requires actions[i].ListRequests? || actions[i].StartUpdate?
    ensures SyncKnown(conf, run, i + 1) && UpdateKnown(conf, run, i + 1)
  {
    assert Step(conf, run, actions, i);
    RunSane(conf, run, actions, i);
    if actions[i].ListRequests? {
      var t := run[i + 1];
      assert t.robot.listedAt == i && t.robot.todo == actions[i].listing && ListsRequests(t.robot.todo, run[i].gitlab);
      forall l | l in t.robot.todo
        ensures SubmitRequest(run[i].gitlab, l.iid) && run[i].gitlab.requests[l.iid] == l.request
      {
      }
    }
  }

  lemma ReadStep(conf: Config, run: seq<State>, actions: seq<Action>, i: nat)
    requires IsRun(conf, run, actions) && i < |actions| && OneIteration(run, i) && SyncKnown(conf, run, i)
    requires actions[i].ReadNotes? || actions[i].ReadChanges? || actions[i].ReadPipeline?
    ensures SyncKnown(conf, run, i + 1) && UpdateKnown(conf, run, i + 1)
  {
    assert Step(conf, run, actions, i);
    RunSane(conf, run, actions, i);
    ReadProgress(conf, run, actions, i);
    var s, t := run[i], run[i + 1];
    forall iid | SubmitRequest(run[s.robot.listedAt].gitlab, iid)
      ensures Listed(iid, run[s.robot.listedAt].gitlab.requests[iid]) in t.robot.todo || Done(conf, run, t, iid, s.robot.listedAt, i + 1)
    {
      assert Listed(iid, run[s.robot.listedAt].gitlab.requests[iid]) in s.robot.todo || Done(conf, run, s, iid, s.robot.listedAt, i);
    }
  }

  lemma ReadProgress(conf: Config, run: seq<State>, actions: seq<Action>, i: nat)
    requires IsRun(conf, run, actions) && i < |actions| && OneIteration(run, i) && SyncKnown(conf, run, i)
    requires actions[i].ReadNotes? || actions[i].ReadChanges? || actions[i].ReadPipeline?
    ensures run[i].robot.Syncing? && run[i].robot.todo != []
    ensures run[i + 1].robot.Syncing? && run[i + 1].robot == run[i].robot.(progress := run[i + 1].robot.progress)
    ensures ProgressKnown(run, i + 1, run[i].robot.todo[0], run[i].robot.listedAt, run[i + 1].robot.progress)
  {
    assert Step(conf, run, actions, i);
    RunSane(conf, run, actions, i);
  }

  lemma {:induction false} RunKnown(conf: Config, run: seq<State>, actions: seq<Action>, i: nat)
    requires IsRun(conf, run, actions) && i < |run|
    ensures Known(conf, run, i)
  {
    if i > 0 {
      var k, action := i - 1, actions[i - 1];
      RunKnown(conf, run, actions, k);
      if action.Store? {
        StoredRow(conf, run, actions, k);
        StoreRows(conf, run, actions, k, run[k].robot.todo[0]);
        StoreSync(conf, run, k, run[k].robot.todo[0]);
      } else {
        RowsStep(conf, run, actions, k);
        if action.ReadNotes? || action.ReadChanges? || action.ReadPipeline? {
          ReadStep(conf, run, actions, k);
        } else if action.ListRequests? || action.StartUpdate? {
          TurnStep(conf, run, actions, k);
        } else {
          OtherStep(conf, run, actions, k);
        }
      }
    }
  }

  /**
   * In every interleaving, at any time and whatever became of its iteration, each row the
   * robot has stored is what gitlab showed at the four reads of that sync.
   */
  lemma {:induction false} RunFaithful(conf: Config, run: seq<State>, actions: seq<Action>, i: nat, iid: int)
    requires IsRun(conf, run, actions) && i < |run| && iid in run[i].readAt
    ensures iid in run[i].rows && Faithful(conf, run, iid, run[i].rows[iid], run[i].readAt[iid], i)
  {
    if i > 0 {
      RunKnown(conf, run, actions, i - 1);
      if actions[i - 1].Store? {
        StoredRow(conf, run, actions, i - 1);
        if iid != run[i - 1].robot.todo[0].iid {
          RunFaithful(conf, run, actions, i - 1, iid);
        }
      } else {
        RowsStep(conf, run, actions, i - 1);
        RunFaithful(conf, run, actions, i - 1, iid);
      }
    }
  }

  // The evidence

  ghost predicate RobotMerges(conf: Config, s: State, action: Action, t: State, iid: int) {
    && Next(conf, s, action, t) && action.UpdateBranch? && action.granted
    && var decision := DecisionOf(conf, s.robot, action.taskRows);
       decision.Accept? && decision.iid == iid
  }

  ghost predicate Clean(diff: Changes, task: string) {
    !diff.overflow && diff.changes != [] && forall change :: change in diff.changes ==> Allowed(change, task)
  }

  /** Every review thread is resolved and every review note older than the cutoff. */
  ghost predicate QuietNotes(notes: seq<Note>, cutoff: int) {
    forall note :: note in notes && note.resolvable ==> note.resolved && note.createdAt.Some? && note.createdAt.value < cutoff
  }

  ghost predicate QuietPipeline(pipelines: seq<CiPipeline>, cutoff: int) {
    pipelines != [] && pipelines[0].status == Success && pipelines[0].createdAt.Some? && pipelines[0].createdAt.value < cutoff
  }

  /** The listing of the iteration showed the request open and mergeable at this commit. */
  ghost predicate ListedMergeable(request: Request, sha: string) {
    && request.state == Opened && request.sha == sha && sha != ""
    && NormalizeMergeStatus(request.detailedStatus, request.legacyStatus) == CAN_BE_MERGED
  }

  /**
   * What the iteration that merges the request at step i has seen. cutoff lies the review
   * period before the start of its update.
   */
  ghost predicate MergeEvidence(conf: Config, run: seq<State>, i: nat, iid: int)
    requires i + 1 < |run|
  {
    var s, t := run[i], run[i + 1];
    && s.robot.Updating? && iid in s.readAt && iid in s.rows
    && var l, r, u, cutoff := s.robot.listedAt, s.readAt[iid], s.robot.cutoffAt, s.robot.cutoff;
    && l < r.notesAt < r.changesAt < r.pipelineAt < u < i
    && (forall k :: l < k <= i ==> !run[k].robot.Idle?)
    && cutoff == run[u].gitlab.now - conf.reviewTtl && 0 < conf.reviewTtl
    && SubmitRequest(run[l].gitlab, iid) && iid in run[r.changesAt].gitlab.requests && iid in run[r.pipelineAt].gitlab.requests
    && var listed := run[l].gitlab.requests[iid];
    && ListedMergeable(listed, s.rows[iid].sha)
    && Clean(run[r.changesAt].gitlab.requests[iid].diff, ParseTaskFromBranch(listed.branch))
    && QuietPipeline(run[r.pipelineAt].gitlab.requests[iid].pipelines, cutoff)
    && (forall other :: OfSameTask(run[l].gitlab, other, listed.branch) ==> QuietRequest(run, s, other, l, u, cutoff))
    && IsCreditable(s.rows[iid])
    // the commit that is merged is the listed one, and still the head
    && iid in s.gitlab.requests && s.gitlab.requests[iid].sha == listed.sha
    && iid in t.gitlab.requests && t.gitlab.requests[iid].state == Merged
    && t.gitlab.requests[iid].mergedSha == Some(listed.sha) && t.gitlab.requests[iid].mergedBy == conf.robotLogin
  }

  ghost predicate OfSameTask(g: GitLab, iid: int, branch: string) {
    SubmitRequest(g, iid) && ParseTaskFromBranch(g.requests[iid].branch) == ParseTaskFromBranch(branch)
  }

  /** The notes of the request were read between the listing and the update, and were quiet. */
  ghost predicate QuietRequest(run: seq<State>, s: State, other: int, listedAt: nat, cutoffAt: nat, cutoff: int) {
    && other in s.readAt && listedAt < s.readAt[other].notesAt < cutoffAt && cutoffAt < |run|
    && other in run[s.readAt[other].notesAt].gitlab.requests
    && QuietNotes(run[s.readAt[other].notesAt].gitlab.requests[other].notes, cutoff)
  }

  lemma LatestIsFirst(request: Request, now: Time)
    requires SaneRequest(request, now)
    ensures request.pipelines == [] ==> LatestPipeline(request.pipelines) == NO_PIPELINE
    ensures request.pipelines != [] ==>
              var first := request.pipelines[0];
              LatestPipeline(request.pipelines) == PipelineInfo(first.id, first.status, first.createdAt.value)
  {
  }

  /** The chosen open row comes from the table, and it and its task are quiet. */
  lemma AcceptedRow(conf: Config, s: State, taskRows: seq<MergeRequest>, task: string, decision: Decision)
    requires s.robot.Updating? && s.robot.branches.Some? && s.robot.branches.value != []
    requires KnownRows(conf, s) && ListsTask(taskRows, s.rows, task)
    requires decision == DecisionOf(conf, s.robot, taskRows) && decision.Accept?
    ensures decision.iid in s.rows && 0 < conf.reviewTtl
    ensures var row := s.rows[decision.iid];
            && row.sha == decision.sha && row.sha != "" && row.state == Opened && row.task == task
            && row.mergeStatus == CAN_BE_MERGED && !row.extraChanges && !row.noChanges
            && row.lastPipelineStatus == Success && row.lastPipelineCreatedAt != ZERO_TIME && row.lastPipelineCreatedAt < s.robot.cutoff
    ensures forall iid :: iid in s.rows && s.rows[iid].task == task ==>
              !s.rows[iid].hasUnresolvedNotes && s.rows[iid].lastNoteCreatedAt < s.robot.cutoff
  {
    BestIsLeast(taskRows, InState(Opened), Newer);
    LastNoteIsLast(taskRows);
    var open := BranchRequestsOf(taskRows).open.value;
    assert open in s.rows.Values;
    var iid := KeyOf(s.rows, open);
    assert KnownRow(conf, iid, open, s.gitlab);
    forall other | other in s.rows && s.rows[other].task == task
      ensures !s.rows[other].hasUnresolvedNotes && s.rows[other].lastNoteCreatedAt < s.robot.cutoff
    {
      assert s.rows[other] in s.rows.Values && s.rows[other] in taskRows;
    }
  }

  lemma QuietRow(conf: Config, run: seq<State>, actions: seq<Action>, i: nat, other: int)
    requires IsRun(conf, run, actions) && i < |run| && run[i].robot.Updating? && Known(conf, run, i)
    requires SubmitRequest(run[run[i].robot.listedAt].gitlab, other)
    requires other in run[i].rows ==> !run[i].rows[other].hasUnresolvedNotes && run[i].rows[other].lastNoteCreatedAt < run[i].robot.cutoff
    ensures QuietRequest(run, run[i], other, run[i].robot.listedAt, run[i].robot.cutoffAt, run[i].robot.cutoff)
  {
    var s := run[i];
    assert Done(conf, run, s, other, s.robot.listedAt, s.robot.cutoffAt);
    var at := s.readAt[other].notesAt;
    RunSane(conf, run, actions, at);
    NotesInfoMeaning(run[at].gitlab.requests[other].notes);
  }

  /**
   * In every interleaving a request the robot merges was, in that iteration, open and
   * mergeable at the merged commit, touching its task's directory only, green for longer
   * than the review period, and no request of its task had an open thread or a recent note.
   */
  lemma MergedOnEvidence(conf: Config, run: seq<State>, actions: seq<Action>, i: nat, iid: int)
    requires IsRun(conf, run, actions) && i < |actions| && RobotMerges(conf, run[i], actions[i], run[i + 1], iid)
    ensures MergeEvidence(conf, run, i, iid)
  {
    var s, action := run[i], actions[i];
    RunKnown(conf, run, actions, i);
    var l, u := s.robot.listedAt, s.robot.cutoffAt;
    var branch := s.robot.branches.value[0].name;
    AcceptedRow(conf, s, action.taskRows, ParseTaskFromBranch(branch), DecisionOf(conf, s.robot, action.taskRows));
    assert KnownRow(conf, iid, s.rows[iid], s.gitlab);
    assert iid in run[l].gitlab.requests;
    RunPersists(conf, run, actions, l, i);
    assert SubmitRequest(run[l].gitlab, iid);
    assert Done(conf, run, s, iid, l, u);
    var r := s.readAt[iid];
    RunSane(conf, run, actions, r.pipelineAt);
    LatestIsFirst(run[r.pipelineAt].gitlab.requests[iid], run[r.pipelineAt].gitlab.now);
    forall other | OfSameTask(run[l].gitlab, other, run[l].gitlab.requests[iid].branch)
      ensures QuietRequest(run, s, other, l, u, s.robot.cutoff)
    {
      assert Done(conf, run, s, other, l, u);
      QuietRow(conf, run, actions, i, other);
    }
  }
}
