/**
 * When exactly the robot opens a request, in any run, if gitlab's requests are as they were
 * listed: also with several branches of one task, equal creation times and reopened requests.
 */
module RobotDecisions {
  import opened Wrappers
  import opened Models
  import opened Selection
  import opened Branches
  import opened Database
  import opened Robot
  import opened RobotProtocol
  import opened RobotSafety
  import opened RobotQuiescence

  ghost predicate NothingMoved(run: seq<State>, i: nat)
    requires i < |run|
  {
    !run[i].robot.Idle? && run[i].robot.listedAt < |run| && SameEverywhere(run[run[i].robot.listedAt].gitlab, run[i].gitlab)
  }

  /** The last merge of the branch's task as the robot sees it: ties go to the lowest id. */
  ghost predicate LastMerge(g: GitLab, iid: int, branch: string) {
    && OfSameTask(g, iid, branch) && g.requests[iid].state == Merged
    && forall other :: OfSameTask(g, other, branch) && g.requests[other].state == Merged && other != iid ==>
         || g.requests[other].createdAt < g.requests[iid].createdAt
         || (g.requests[other].createdAt == g.requests[iid].createdAt && iid < other)
  }

  ghost predicate TaskHas(g: GitLab, branch: string, state: RequestState) {
    exists iid :: OfSameTask(g, iid, branch) && g.requests[iid].state == state
  }

  /** Some request of the task was merged last, and the head is known to have moved past it. */
  ghost predicate MovedOn(g: GitLab, branch: string, head: string) {
    exists iid :: LastMerge(g, iid, branch) && !Covers(g.requests[iid].sha, head)
  }

  /** The rows describe the requests of the task exactly, in the order of their ids. */
  ghost predicate MirrorsTask(rows: seq<MergeRequest>, g: GitLab, branch: string) {
    && StrictlySorted(rows, IdLess)
    && (forall row :: row in rows ==>
          row.id == row.iid && OfSameTask(g, row.iid, branch) && row.state == g.requests[row.iid].state
          && row.sha == g.requests[row.iid].sha && row.startedAt == g.requests[row.iid].createdAt)
    && (forall iid :: OfSameTask(g, iid, branch) ==> exists row :: row in rows && row.iid == iid)
  }

  lemma TurnMirrors(conf: Config, run: seq<State>, actions: seq<Action>, i: nat)
    requires IsRun(conf, run, actions) && i < |actions| && actions[i].UpdateBranch? && NothingMoved(run, i)
    ensures run[i].robot.Updating? && run[i].robot.branches.Some? && run[i].robot.branches.value != []
    ensures MirrorsTask(actions[i].taskRows, run[i].gitlab, run[i].robot.branches.value[0].name)
  {
    var s, rows := run[i], actions[i].taskRows;
    assert Step(conf, run, actions, i);
    RunKnown(conf, run, actions, i);
    var l, g, b := s.robot.listedAt, s.gitlab, s.robot.branches.value[0];
    forall row | row in rows
      ensures row.id == row.iid && OfSameTask(g, row.iid, b.name) && row.state == g.requests[row.iid].state
      ensures row.sha == g.requests[row.iid].sha && row.startedAt == g.requests[row.iid].createdAt
    {
      var iid := KeyOf(s.rows, row);
      assert KnownRow(conf, iid, row, g);
      Unmoved(run[l].gitlab, g, iid);
      assert Done(conf, run, s, iid, l, s.robot.cutoffAt);
    }
    forall iid | OfSameTask(g, iid, b.name)
      ensures exists row :: row in rows && row.iid == iid
    {
      Unmoved(run[l].gitlab, g, iid);
      assert Done(conf, run, s, iid, l, s.robot.cutoffAt);
      assert KnownRow(conf, iid, s.rows[iid], g);
      assert s.rows[iid] in s.rows.Values && s.rows[iid] in rows;
    }
  }

  lemma Unmoved(g: GitLab, h: GitLab, iid: int)
    requires SameEverywhere(g, h)
    ensures SubmitRequest(g, iid) <==> SubmitRequest(h, iid)
    ensures SubmitRequest(h, iid) ==> SameShape(g.requests[iid], h.requests[iid])
  {
    if iid in g.requests {
      assert SameOnBranch(g, h, g.requests[iid].branch) && OnBranch(g, iid, g.requests[iid].branch);
    }
    if iid in h.requests {
      assert SameOnBranch(g, h, h.requests[iid].branch) && OnBranch(h, iid, h.requests[iid].branch);
    }
  }

  lemma RowsOpen(rows: seq<MergeRequest>, g: GitLab, branch: string)
    requires MirrorsTask(rows, g, branch)
    ensures BranchRequestsOf(rows).open.Some? <==> TaskHas(g, branch, Opened)
    ensures BranchRequestsOf(rows).merged.Some? <==> TaskHas(g, branch, Merged)
  {
    BestIsLeast(rows, InState(Opened), Newer);
    BestIsLeast(rows, InState(Merged), Newer);
    forall iid | OfSameTask(g, iid, branch)
      ensures exists row :: row in rows && row.iid == iid && row.state == g.requests[iid].state
    {
      var row :| row in rows && row.iid == iid;
    }
  }

  /** The row taken for the last merge is that of the last merge. */
  lemma RowsLastMerge(rows: seq<MergeRequest>, g: GitLab, branch: string)
    requires MirrorsTask(rows, g, branch) && BranchRequestsOf(rows).merged.Some?
    ensures LastMerge(g, BranchRequestsOf(rows).merged.value.iid, branch)
  {
    var merged := FirstOf(rows, Merged);
    forall other | OfSameTask(g, other, branch) && g.requests[other].state == Merged && other != merged.iid
      ensures || g.requests[other].createdAt < g.requests[merged.iid].createdAt
              || (g.requests[other].createdAt == g.requests[merged.iid].createdAt && merged.iid < other)
    {
      var row :| row in rows && row.iid == other;
    }
  }

  /** Of the rows in a state the newest is taken, and of these the one with the lowest id. */
  lemma FirstOf(rows: seq<MergeRequest>, state: RequestState) returns (first: MergeRequest)
    requires StrictlySorted(rows, IdLess) && Best(rows, InState(state), Newer).Some?
    ensures Best(rows, InState(state), Newer) == Some(first) && first in rows && first.state == state
    ensures forall row :: row in rows && row.state == state && row != first ==>
              row.startedAt < first.startedAt || (row.startedAt == first.startedAt && first.id < row.id)
  {
    BestIsLeast(rows, InState(state), Newer);
    var at := BestIsFirst(rows, InState(state), Newer);
    first := rows[at];
    forall row | row in rows && row.state == state && row != first
      ensures row.startedAt < first.startedAt || (row.startedAt == first.startedAt && first.id < row.id)
    {
      var j :| 0 <= j < |rows| && rows[j] == row;
      assert !Newer(row, first);
      assert j > at ==> IdLess(rows[at], rows[j]);
    }
  }

  /** Every condition under which the robot merges, on the rows of the task. */
  ghost predicate IsReady(rows: seq<MergeRequest>, open: MergeRequest, reviewTtl: int, reviewDeadline: int) {
    && open in rows && open.state == Opened && reviewTtl != 0
    && (forall row :: row in rows && row.state == Opened && row != open ==>
          row.startedAt < open.startedAt || (row.startedAt == open.startedAt && open.id < row.id))
    && (forall row :: row in rows ==> !row.hasUnresolvedNotes && row.lastNoteCreatedAt < reviewDeadline)
    && open.mergeStatus == "can_be_merged" && open.sha != "" && !open.extraChanges && !open.noChanges
    && open.lastPipelineStatus == Success && 0 < open.lastPipelineCreatedAt < reviewDeadline
  }

  /** The robot merges a request exactly if it is the newest open one of its task, the lowest of equals, and ready. */
  lemma AcceptsExactly(rows: seq<MergeRequest>, head: string, reviewTtl: int, reviewDeadline: int, iid: int, sha: string)
    requires StrictlySorted(rows, IdLess)
    ensures Decide(BranchRequestsOf(rows), head, reviewTtl, reviewDeadline) == Accept(iid, sha)
            <==> exists open :: IsReady(rows, open, reviewTtl, reviewDeadline) && open.iid == iid && open.sha == sha
  {
    var requests := BranchRequestsOf(rows);
    LastNoteIsLast(rows);
    LastNoteIsSome(rows);
    BestIsLeast(rows, InState(Opened), Newer);
    if requests.open.Some? {
      var open := FirstOf(rows, Opened);
      assert IsReady(rows, open, reviewTtl, reviewDeadline) <==> reviewTtl != 0 && ReadyToMerge(requests, reviewDeadline);
      forall other | IsReady(rows, other, reviewTtl, reviewDeadline)
        ensures other == open
      {
      }
    }
  }

  lemma {:induction false} LastNoteIsSome(rows: seq<MergeRequest>)
    ensures LastNote(rows) == 0 || exists row :: row in rows && row.lastNoteCreatedAt == LastNote(rows)
  {
    if rows != [] {
      var front, last := rows[..|rows| - 1], rows[|rows| - 1];
      LastNoteIsSome(front);
      assert rows == front + [last];
      if LastNote(rows) == LastNote(front) != 0 {
        var row :| row in front && row.lastNoteCreatedAt == LastNote(front);
        assert row in rows;
      } else if LastNote(rows) != 0 {
        assert last in rows;
      }
    }
  }

  /**
   * The robot opens a request exactly if the task has none open and none merged, or its last
   * merge is known not to be the head. So a settled branch is written to exactly if the last
   * merge of its task is not one that settles it.
   */
  lemma TurnCreates(conf: Config, run: seq<State>, actions: seq<Action>, i: nat)
    requires IsRun(conf, run, actions) && i < |actions| && actions[i].UpdateBranch? && NothingMoved(run, i)
    ensures run[i].robot.Updating? && run[i].robot.branches.Some? && run[i].robot.branches.value != []
    ensures var g, branch := run[i].gitlab, run[i].robot.branches.value[0];
            && (DecisionOf(conf, run[i].robot, actions[i].taskRows).Create? <==>
                  !TaskHas(g, branch.name, Opened) && (TaskHas(g, branch.name, Merged) ==> MovedOn(g, branch.name, branch.head)))
            && (Settled(g, branch.name) && IsSubmitBranch(branch.name) && !TaskHas(g, branch.name, Opened) ==>
                  (DecisionOf(conf, run[i].robot, actions[i].taskRows).Create? <==> MovedOn(g, branch.name, branch.head)))
  {
    TurnMirrors(conf, run, actions, i);
    var g, branch, rows := run[i].gitlab, run[i].robot.branches.value[0], actions[i].taskRows;
    RowsOpen(rows, g, branch.name);
    if BranchRequestsOf(rows).merged.Some? {
      RowsLastMerge(rows, g, branch.name);
      BestIsLeast(rows, InState(Merged), Newer);
    }
    SettledHasMerged(g, branch.name);
  }

  lemma SettledHasMerged(g: GitLab, branch: string)
    ensures Settled(g, branch) && IsSubmitBranch(branch) ==> TaskHas(g, branch, Merged)
  {
    if iid :| NewestMerged(g, iid, branch) && IsSubmitBranch(branch) {
      assert OfSameTask(g, iid, branch);
    }
  }

  /** In an orderly gitlab the two notions of the last merge are one, so no settled branch is written to. */
  lemma OrderlyLastMerge(g: GitLab, iid: int, branch: string)
    requires Orderly(g) && IsSubmitBranch(branch) && Submitted(g, branch)
    ensures LastMerge(g, iid, branch) <==> NewestMerged(g, iid, branch)
  {
    forall other
      ensures OfSameTask(g, other, branch) <==> OnBranch(g, other, branch)
    {
      if OfSameTask(g, other, branch) {
        assert OnBranch(g, other, g.requests[other].branch) && Submitted(g, g.requests[other].branch);
      }
    }
  }
}
