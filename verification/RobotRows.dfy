/** What the rows that the robot stores say, column by column, about what gitlab showed it. */
module RobotRows {
  import opened Wrappers
  import opened Models
  import opened Branches
  import opened Robot
  import opened RobotProtocol
  import opened RobotSafety

  /** The columns taken from the listing. */
  ghost predicate ListedColumns(conf: Config, iid: int, row: MergeRequest, listed: Request) {
    && row.id == iid && row.iid == iid && row.project == conf.project
    && row.sha == listed.sha && row.state == listed.state && row.startedAt == listed.createdAt
    && row.userNotesCount == listed.userNotesCount && row.mergeUserLogin == listed.mergedBy
    && TaskColumn(row.task, listed.branch)
    && StatusColumn(row.mergeStatus, listed.detailedStatus, listed.legacyStatus)
  }

  /** The rest of the branch's name. */
  ghost predicate TaskColumn(task: string, branch: string) {
    branch == "submits/tasks/" + task || (branch == "submits/" + task && !("tasks/" <= task))
  }

  ghost predicate StatusColumn(status: string, detailed: string, legacy: string) {
    && (detailed == "" ==> status == legacy)
    && (detailed == "mergeable" ==> status == "can_be_merged")
    && (detailed == "conflict" || detailed == "need_rebase" ==> status == "cannot_be_merged")
    && (detailed != "" && detailed != "mergeable" && detailed != "conflict" && detailed != "need_rebase" ==> status == detailed)
  }

  /** Unresolved threads, and the time of the last review note, 0 if there is none. */
  ghost predicate NoteColumns(row: MergeRequest, notes: seq<Note>) {
    && (row.hasUnresolvedNotes <==> exists note :: note in notes && note.resolvable && !note.resolved)
    && (forall note :: note in notes && note.resolvable ==> note.createdAt.Some? && note.createdAt.value <= row.lastNoteCreatedAt)
    && (row.lastNoteCreatedAt != 0 ==> exists note :: note in notes && note.resolvable && note.createdAt == Some(row.lastNoteCreatedAt))
  }

  /** A diff that gitlab cut off counts as going outside of the task; no changes means a complete, empty diff. */
  ghost predicate ChangeColumns(row: MergeRequest, diff: Changes) {
    && (row.noChanges <==> !diff.overflow && diff.changes == [])
    && (row.extraChanges <==> diff.overflow || exists change :: change in diff.changes && IsOutside(row.task, change))
  }

  ghost predicate IsOutside(task: string, change: Change) {
    !("tasks/" + task + "/" <= change.newPath) || !("tasks/" + task + "/" <= change.oldPath)
  }

  /** The newest pipeline of the request. */
  ghost predicate PipelineColumns(row: MergeRequest, pipelines: seq<CiPipeline>) {
    if pipelines == [] then row.lastPipelineID == 0 && row.lastPipelineStatus == Unlisted("") && row.lastPipelineCreatedAt == 0
    else
      && row.lastPipelineID == pipelines[0].id && row.lastPipelineStatus == pipelines[0].status
      && pipelines[0].createdAt == Some(row.lastPipelineCreatedAt)
      && forall other :: other in pipelines ==> other.createdAt.Some?
  }

  lemma TaskIsColumn(branch: string)
    requires IsSubmitBranch(branch)
    ensures TaskColumn(ParseTaskFromBranch(branch), branch)
  {
    var rest := branch[|BRANCH_PREFIX|..];
    assert branch == "submits/" + rest;
    if "tasks/" <= rest {
      assert rest == "tasks/" + rest[6..];
      assert "submits/" + "tasks/" == "submits/tasks/";
      assert branch == "submits/tasks/" + rest[6..];
    }
  }

  lemma OutsideChanges(diff: Changes, task: string)
    ensures var info := ChangesInfoOf(diff, task);
            && (info.empty <==> !diff.overflow && diff.changes == [])
            && (info.extra <==> diff.overflow || exists change :: change in diff.changes && IsOutside(task, change))
  {
    assert forall change :: IsOutside(task, change) <==> !Allowed(change, task);
  }

  lemma ColumnsOf(conf: Config, iid: int, listed: Request, notes: seq<Note>, diff: Changes, pipelines: seq<CiPipeline>)
    requires IsSubmitBranch(listed.branch) && NewestFirst(notes)
    requires forall i :: 0 <= i < |pipelines| ==> pipelines[i].createdAt.Some?
    ensures var row := RowOf(conf, iid, listed, NotesInfoOf(notes), ChangesInfoOf(diff, ParseTaskFromBranch(listed.branch)), LatestPipeline(pipelines));
            ListedColumns(conf, iid, row, listed) && NoteColumns(row, notes) && ChangeColumns(row, diff) && PipelineColumns(row, pipelines)
  {
    TaskIsColumn(listed.branch);
    NotesInfoMeaning(notes);
    OutsideChanges(diff, ParseTaskFromBranch(listed.branch));
  }

  /** Every row stored since the start of the run, at any time, in every interleaving. */
  lemma StoredColumns(conf: Config, run: seq<State>, actions: seq<Action>, i: nat, iid: int)
    requires IsRun(conf, run, actions) && i < |run| && iid in run[i].readAt
    ensures iid in run[i].rows && ReadsShow(run, iid, run[i].readAt[iid], i)
    ensures var row, r := run[i].rows[iid], run[i].readAt[iid];
            && ListedColumns(conf, iid, row, run[r.listedAt].gitlab.requests[iid])
            && NoteColumns(row, run[r.notesAt].gitlab.requests[iid].notes)
            && ChangeColumns(row, run[r.changesAt].gitlab.requests[iid].diff)
            && PipelineColumns(row, run[r.pipelineAt].gitlab.requests[iid].pipelines)
  {
    RunFaithful(conf, run, actions, i, iid);
    RunKnown(conf, run, actions, i);
    var r := run[i].readAt[iid];
    RunSane(conf, run, actions, r.notesAt);
    RunSane(conf, run, actions, r.pipelineAt);
    RunPersists(conf, run, actions, r.listedAt, i);
    assert KnownRow(conf, iid, run[i].rows[iid], run[i].gitlab);
    var listed := run[r.listedAt].gitlab.requests[iid];
    ColumnsOf(conf, iid, listed, run[r.notesAt].gitlab.requests[iid].notes, run[r.changesAt].gitlab.requests[iid].diff,
      run[r.pipelineAt].gitlab.requests[iid].pipelines);
  }

  /** The four reads came one after another, and gitlab had the request at each. */
  ghost predicate ReadsShow(run: seq<State>, iid: int, r: Reads, upTo: nat) {
    && r.listedAt < r.notesAt < r.changesAt < r.pipelineAt < upTo <= |run|
    && iid in run[r.listedAt].gitlab.requests && iid in run[r.notesAt].gitlab.requests
    && iid in run[r.changesAt].gitlab.requests && iid in run[r.pipelineAt].gitlab.requests
  }
}
