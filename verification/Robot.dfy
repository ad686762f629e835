/**
 * What the merge request robot reads from gitlab and what it decides from the database:
 * internal/gitlab/merge_requests.go.
 */
module Robot {
  import opened Wrappers
  import opened Models
  import opened Strings
  import opened Selection
  import opened Branches

  // gitlab's answers

  datatype Note = Note(resolvable: bool, resolved: bool, createdAt: Option<Time>)

  datatype Change = Change(newPath: string, oldPath: string)

  datatype Changes = Changes(overflow: bool, changes: seq<Change>)

  datatype CiPipeline = CiPipeline(id: int, status: PipelineStatus, createdAt: Option<Time>)

  // Notes

  datatype NotesInfo = NotesInfo(hasUnresolvedNotes: bool, lastNoteCreatedAt: Time)

  /** The loop over the notes, with the time found so far. */
  function NotesFrom(notes: seq<Note>, last: Time): NotesInfo {
    if notes == [] then NotesInfo(false, last)
    else
      var note := notes[0];
      if !note.resolvable then NotesFrom(notes[1..], last)
      else
        var seen := if last == ZERO_TIME && note.createdAt.Some? then note.createdAt.value else last;
        if !note.resolved then NotesInfo(true, seen) else NotesFrom(notes[1..], seen)
  }

  function NotesInfoOf(notes: seq<Note>): NotesInfo {
    NotesFrom(notes, ZERO_TIME)
  }

  method GetNotesInfo(pages: seq<seq<Note>>) returns (result: NotesInfo)
    ensures result == NotesInfoOf(Flatten(pages))
  {
    result := NotesInfo(false, ZERO_TIME);
    for p := 0 to |pages|
      invariant !result.hasUnresolvedNotes
      invariant NotesInfoOf(Flatten(pages)) == NotesFrom(Flatten(pages[p..]), result.lastNoteCreatedAt)
    {
      assert Flatten(pages[p..]) == pages[p] + Flatten(pages[p + 1..]) by {
        assert pages[p..][1..] == pages[p + 1..];
      }
      for i := 0 to |pages[p]|
        invariant !result.hasUnresolvedNotes
        invariant NotesInfoOf(Flatten(pages)) == NotesFrom(pages[p][i..] + Flatten(pages[p + 1..]), result.lastNoteCreatedAt)
      {
        var note := pages[p][i];
        assert (pages[p][i..] + Flatten(pages[p + 1..]))[1..] == pages[p][i + 1..] + Flatten(pages[p + 1..]);
        if !note.resolvable {
          continue;
        }
        if result.lastNoteCreatedAt == ZERO_TIME && note.createdAt.Some? {
          result := result.(lastNoteCreatedAt := note.createdAt.value);
        }
        if !note.resolved {
          result := result.(hasUnresolvedNotes := true);
          return;
        }
      }
      assert pages[p][|pages[p]|..] + Flatten(pages[p + 1..]) == Flatten(pages[p + 1..]);
    }
    assert pages[|pages|..] == [];
  }

  /** Listed newest first, all with a time. */
  ghost predicate NewestFirst(notes: seq<Note>) {
    && (forall i :: 0 <= i < |notes| ==> notes[i].createdAt.Some? && notes[i].createdAt.value != ZERO_TIME)
    && (forall i, j :: 0 <= i < j < |notes| ==> notes[j].createdAt.value <= notes[i].createdAt.value)
  }

  lemma {:induction false} NotesFromMeaning(notes: seq<Note>, last: Time)
    requires NewestFirst(notes)
    requires last == ZERO_TIME || forall i :: 0 <= i < |notes| ==> notes[i].createdAt.value <= last
    ensures var info := NotesFrom(notes, last);
            && (info.hasUnresolvedNotes <==> exists note :: note in notes && note.resolvable && !note.resolved)
            && last <= info.lastNoteCreatedAt
            && (forall note :: note in notes && note.resolvable ==> note.createdAt.value <= info.lastNoteCreatedAt)
            && (info.lastNoteCreatedAt == last || exists note :: note in notes && note.resolvable && note.createdAt == Some(info.lastNoteCreatedAt))
    decreases |notes|
  {
    if notes != [] {
      var note, rest := notes[0], notes[1..];
      assert notes == [note] + rest;
      var seen := if note.resolvable && last == ZERO_TIME then note.createdAt.value else last;
      NotesFromMeaning(rest, seen);
      assert forall n :: n in notes <==> n == note || n in rest;
    }
  }

  /** An unresolved thread is reported, and the reported time is that of the last review note. */
  lemma NotesInfoMeaning(notes: seq<Note>)
    requires NewestFirst(notes)
    ensures var info := NotesInfoOf(notes);
            && (info.hasUnresolvedNotes <==> exists note :: note in notes && note.resolvable && !note.resolved)
            && (forall note :: note in notes && note.resolvable ==> note.createdAt.value <= info.lastNoteCreatedAt)
            && (info.lastNoteCreatedAt != ZERO_TIME ==>
                  exists note :: note in notes && note.resolvable && note.createdAt == Some(info.lastNoteCreatedAt))
  {
    NotesFromMeaning(notes, ZERO_TIME);
  }

  // Changes

  datatype ChangesInfo = ChangesInfo(extra: bool, empty: bool)

  predicate Allowed(change: Change, task: string) {
    HasPrefix(change.newPath, TASKS_PREFIX + task + "/") && HasPrefix(change.oldPath, TASKS_PREFIX + task + "/")
  }

  method InspectChanges(diff: Changes, task: string) returns (info: ChangesInfo)
    ensures info == ChangesInfoOf(diff, task)
  {
    var allowedPrefix := TASKS_PREFIX + task + "/";
    if diff.overflow {
      return ChangesInfo(true, false);
    }
    if |diff.changes| == 0 {
      return ChangesInfo(false, true);
    }
    for i := 0 to |diff.changes|
      invariant forall change :: change in diff.changes[..i] ==> Allowed(change, task)
    {
      var change := diff.changes[i];
      if !HasPrefix(change.newPath, allowedPrefix) || !HasPrefix(change.oldPath, allowedPrefix) {
        assert change in diff.changes && !Allowed(change, task);
        return ChangesInfo(true, false);
      }
      assert diff.changes[..i + 1] == diff.changes[..i] + [change];
    }
    assert diff.changes[..|diff.changes|] == diff.changes;
    info := ChangesInfo(false, false);
  }

  /** Clean means a complete, non-empty diff inside the task's directory. */
  function ChangesInfoOf(diff: Changes, task: string): ChangesInfo {
    var empty := !diff.overflow && diff.changes == [];
    ChangesInfo(!empty && (diff.overflow || exists change :: change in diff.changes && !Allowed(change, task)), empty)
  }

  // The newest pipeline

  datatype PipelineInfo = PipelineInfo(id: int, status: PipelineStatus, createdAt: Time)

  const NO_PIPELINE := PipelineInfo(0, Unlisted(""), ZERO_TIME)

  function LatestPipeline(pipelines: seq<CiPipeline>): PipelineInfo {
    if pipelines == [] then NO_PIPELINE
    else if pipelines[0].createdAt.Some? then PipelineInfo(pipelines[0].id, pipelines[0].status, pipelines[0].createdAt.value)
    else LatestPipeline(pipelines[1..])
  }

  /** The first pipeline with a time, or nothing if none has one. */
  lemma {:induction false} LatestIsFirstDated(pipelines: seq<CiPipeline>, i: nat)
    requires i <= |pipelines| && forall k :: 0 <= k < i ==> pipelines[k].createdAt == None
    requires i < |pipelines| ==> pipelines[i].createdAt != None
    ensures var info := LatestPipeline(pipelines);
            if i == |pipelines| then info.id == 0 && info.status == Unlisted("") && info.createdAt == 0
            else info.id == pipelines[i].id && info.status == pipelines[i].status && Some(info.createdAt) == pipelines[i].createdAt
    decreases i
  {
    if i > 0 {
      LatestIsFirstDated(pipelines[1..], i - 1);
    }
  }

  method GetLatestPipeline(pipelines: seq<CiPipeline>) returns (info: PipelineInfo)
    ensures info == LatestPipeline(pipelines)
  {
    for i := 0 to |pipelines|
      invariant LatestPipeline(pipelines) == LatestPipeline(pipelines[i..])
    {
      if pipelines[i].createdAt.Some? {
        return PipelineInfo(pipelines[i].id, pipelines[i].status, pipelines[i].createdAt.value);
      }
      assert pipelines[i..][1..] == pipelines[i + 1..];
    }
    info := NO_PIPELINE;
  }

  function NormalizeMergeStatus(detailed: string, legacy: string): string {
    if detailed == "" then legacy
    else if detailed == "mergeable" then CAN_BE_MERGED
    else if detailed == "conflict" || detailed == "need_rebase" then CANNOT_BE_MERGED
    else detailed
  }

  // Decisions

  datatype BranchRequests = BranchRequests(
    open: Option<MergeRequest>,
    merged: Option<MergeRequest>,
    hasUnresolvedNotes: bool,
    lastNoteCreatedAt: Time)

  function InState(state: RequestState): MergeRequest -> bool {
    (row: MergeRequest) => row.state == state
  }

  predicate Newer(a: MergeRequest, b: MergeRequest) {
    b.startedAt < a.startedAt
  }

  function LastNote(rows: seq<MergeRequest>): Time {
    if rows == [] then ZERO_TIME
    else
      var before, last := LastNote(rows[..|rows| - 1]), rows[|rows| - 1].lastNoteCreatedAt;
      if before < last then last else before
  }

  function BranchRequestsOf(rows: seq<MergeRequest>): BranchRequests {
    BranchRequests(
      Best(rows, InState(Opened), Newer),
      Best(rows, InState(Merged), Newer),
      exists row :: row in rows && row.hasUnresolvedNotes,
      LastNote(rows))
  }

  method LoadBranchMergeRequests(rows: seq<MergeRequest>) returns (result: BranchRequests)
    ensures result == BranchRequestsOf(rows)
  {
    result := BranchRequests(None, None, false, ZERO_TIME);
    for i := 0 to |rows|
      invariant result == BranchRequestsOf(rows[..i])
    {
      var row := rows[i];
      BestStep(rows, i, InState(Opened), Newer);
      BestStep(rows, i, InState(Merged), Newer);
      assert rows[..i + 1] == rows[..i] + [row] && rows[..i + 1][..i] == rows[..i];
      if row.state == Opened {
        if result.open.None? || result.open.value.startedAt < row.startedAt {
          result := result.(open := Some(row));
        }
      } else if row.state == Merged {
        if result.merged.None? || result.merged.value.startedAt < row.startedAt {
          result := result.(merged := Some(row));
        }
      }
      if row.hasUnresolvedNotes {
        result := result.(hasUnresolvedNotes := true);
      }
      if result.lastNoteCreatedAt < row.lastNoteCreatedAt {
        result := result.(lastNoteCreatedAt := row.lastNoteCreatedAt);
      }
    }
    assert rows[..|rows|] == rows;
  }

  lemma {:induction false} LastNoteIsLast(rows: seq<MergeRequest>)
    ensures forall row :: row in rows ==> row.lastNoteCreatedAt <= LastNote(rows)
  {
    if rows != [] {
      LastNoteIsLast(rows[..|rows| - 1]);
      assert rows == rows[..|rows| - 1] + [rows[|rows| - 1]];
    }
  }

  predicate NeedsMergeRequest(merged: Option<MergeRequest>, head: string) {
    merged.None? || (head != "" && merged.value.sha != "" && head != merged.value.sha)
  }

  predicate ReadyToMerge(requests: BranchRequests, reviewDeadline: int)
    requires requests.open.Some?
  {
    var open := requests.open.value;
    && open.mergeStatus == CAN_BE_MERGED
    && open.sha != ""
    && !requests.hasUnresolvedNotes
    && requests.lastNoteCreatedAt < reviewDeadline
    && !open.extraChanges
    && !open.noChanges
    && open.lastPipelineStatus == Success
    && open.lastPipelineCreatedAt != ZERO_TIME
    && open.lastPipelineCreatedAt < reviewDeadline
  }

  datatype Decision = Leave | Create | Accept(iid: int, sha: string)

  function Decide(requests: BranchRequests, head: string, reviewTtl: int, reviewDeadline: int): Decision {
    if requests.open.None? then
      if NeedsMergeRequest(requests.merged, head) then Create else Leave
    else if reviewTtl == 0 || !ReadyToMerge(requests, reviewDeadline) then Leave
    else Accept(requests.open.value.iid, requests.open.value.sha)
  }
}
