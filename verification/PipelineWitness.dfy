/**
 * The protocol is not empty: a run in which the fresh poll looks a merge request pipeline up
 * before its request is there, the sync stores the task, the late store loses it again, the
 * reported pipeline leaves the fresh set, and the full poll brings the task back.
 */
module PipelineWitness {
  import opened Wrappers
  import opened Models
  import opened Branches
  import opened MergeRequestRefs
  import opened PipelineProtocol
  import opened PipelineTheorems

  const REF := "refs/merge-requests/1/head"
  const CI := GitPipeline("project", REF, Success, 5)
  const LAB := GitLab(map[7 := CI], map[1 := GitRequest("project", 1, "submits/task")])
  const REPORT := Report(7, "project")
  const ROW := MergeRequest(1, 1, "sha", "project", "task", Opened, 0, 1, "", "", false, 0, 7, Success, 5, false, false)
  const RAW := Pipeline(7, "project", REF, Success, 5)
  const WITH_TASK := Pipeline(7, "project", "task", Success, 5)
  const LATE := Resolved(Fetched(7, CI, 3), REF, 4)

  /** Before anything is stored. */
  function Empty(poll: FreshPoll, sync: Sync, clock: nat): State {
    State(LAB, map[], map[], map[0 := REPORT], 1, poll, FullIdle, sync, clock)
  }

  /** Once the request is there. */
  function Synced(row: Pipeline, reports: map<nat, Report>, poll: FreshPoll, full: FullPoll, clock: nat): State {
    State(LAB, map[7 := row], map[1 := ROW], reports, 1, poll, full, SyncIdle, clock)
  }

  const RUN: seq<State> := [
    State(LAB, map[], map[], map[], 0, Resting, FullIdle, SyncIdle, 0),
    Empty(Resting, SyncIdle, 1),
    Empty(Ranging({}, {}, NoVisit), SyncIdle, 2),
    Empty(Ranging({0}, {}, Visiting(0, REPORT)), SyncIdle, 3),
    Empty(Ranging({0}, {}, VisitFetched(0, Fetched(7, CI, 3))), SyncIdle, 4),
    Empty(Ranging({0}, {}, VisitResolved(0, LATE)), SyncIdle, 5),
    Empty(Ranging({0}, {}, VisitResolved(0, LATE)), SyncRead(ROW, Some(Fetched(7, CI, 5))), 6),
    Empty(Ranging({0}, {}, VisitResolved(0, LATE)), SyncStored(ROW), 7).(pipelines := map[7 := WITH_TASK]),
    Synced(WITH_TASK, map[0 := REPORT], Ranging({0}, {}, VisitResolved(0, LATE)), FullIdle, 8),
    Synced(RAW, map[0 := REPORT], Ranging({0}, {0}, NoVisit), FullIdle, 9),
    Synced(RAW, map[0 := REPORT], Deleting({0}), FullIdle, 10),
    Synced(RAW, map[], Deleting({}), FullIdle, 11),
    Synced(RAW, map[], Resting, FullIdle, 12),
    Synced(RAW, map[], Resting, FullListed([Fetched(7, CI, 12)]), 13),
    Synced(RAW, map[], Resting, FullResolved(Resolved(Fetched(7, CI, 12), "task", 13), []), 14),
    Synced(WITH_TASK, map[], Resting, FullListed([]), 15)]

  const ACTIONS: seq<Action> := [
    AddFresh(REPORT), StartFresh, Visit(0), FetchFresh, ResolveFresh,
    ReadSync(ROW, Some(Fetched(7, CI, 5))), StoreSyncPipeline, StoreSyncRequest, StoreFresh,
    EndRange, Delete(0), EndFresh,
    ListFull([Fetched(7, CI, 12)]), ResolveFull, StoreFull(true)]

  lemma RefIsOfRequest()
    ensures ParseMergeRequestRef(REF) == Some(1) && ParseTaskFromBranch(REF) == REF
    ensures IsSubmitBranch("submits/task") && ParseTaskFromBranch("submits/task") == "task"
  {
    var one := "1";
    assert IsDigits(one) && one[..0] == "" && ValueOf(one) == 1;
    RefParses(one, HEAD);
    assert REF == REF_PREFIX + one + HEAD;
    RefIsNoBranch(REF);
    TaskOfSubmitBranch("task");
    assert "submits/task" == BRANCH_PREFIX + "task";
  }

  lemma Lookups()
    ensures TaskOfRef(map[], "project", REF) == REF && TaskOfRef(map[1 := ROW], "project", REF) == "task"
  {
    RefIsOfRequest();
    FoundRequest(map[1 := ROW], "project", 1, 1);
  }

  lemma Starts()
    ensures Init(RUN[0]) && Next(RUN[0], ACTIONS[0], RUN[1])
  {
    assert map[][0 := REPORT] == map[0 := REPORT];
  }

  lemma Visits()
    ensures Next(RUN[1], ACTIONS[1], RUN[2])
    ensures Next(RUN[2], ACTIONS[2], RUN[3])
    ensures Next(RUN[3], ACTIONS[3], RUN[4])
  {
    assert {} + {0} == {0};
  }

  lemma LooksUp()
    ensures Next(RUN[4], ACTIONS[4], RUN[5])
  {
    Lookups();
  }

  lemma ReadsRequest()
    ensures Next(RUN[5], ACTIONS[5], RUN[6])
  {
    RefIsOfRequest();
  }

  lemma StoresPipeline()
    ensures Next(RUN[6], ACTIONS[6], RUN[7])
  {
  }

  lemma StoresRequest()
    ensures Next(RUN[7], ACTIONS[7], RUN[8])
  {
  }

  lemma StoresLate()
    ensures Next(RUN[8], ACTIONS[8], RUN[9])
    ensures Next(RUN[9], ACTIONS[9], RUN[10])
  {
    assert {} + {0} == {0};
  }

  lemma Deletes()
    ensures Next(RUN[10], ACTIONS[10], RUN[11])
    ensures Next(RUN[11], ACTIONS[11], RUN[12])
  {
    assert {0} - {0} == {};
    assert map[0 := REPORT] - {0} == map[];
  }

  lemma ListsAgain()
    ensures Next(RUN[12], ACTIONS[12], RUN[13])
  {
  }

  lemma LooksUpAgain()
    ensures Next(RUN[13], ACTIONS[13], RUN[14])
  {
    Lookups();
    assert [Fetched(7, CI, 12)][1..] == [];
  }

  lemma StoresAgain()
    ensures Next(RUN[14], ACTIONS[14], RUN[15])
  {
  }

  lemma EachStep(i: nat)
    requires i < |ACTIONS|
    ensures Next(RUN[i], ACTIONS[i], RUN[i + 1])
  {
    match i
    case 0 => Starts();
    case 1 => Visits();
    case 2 => Visits();
    case 3 => Visits();
    case 4 => LooksUp();
    case 5 => ReadsRequest();
    case 6 => StoresPipeline();
    case 7 => StoresRequest();
    case 8 => StoresLate();
    case 9 => StoresLate();
    case 10 => Deletes();
    case 11 => Deletes();
    case 12 => ListsAgain();
    case 13 => LooksUpAgain();
    case 14 => StoresAgain();
  }

  lemma AllSteps()
    ensures IsRun(RUN, ACTIONS)
  {
    Starts();
    forall i | 0 <= i < |ACTIONS|
      ensures Step(RUN, ACTIONS, i)
    {
      EachStep(i);
    }
  }

  /** The task is there, is lost by the late store, and is back after the next full poll; the report is gone. */
  lemma LateStoreLosesTask()
    ensures IsRun(RUN, ACTIONS) && Finished(RUN, ACTIONS, 11, 0)
    ensures RUN[8].pipelines[7].task == "task" && RUN[9].pipelines[7].task == REF && RUN[15].pipelines[7].task == "task"
    ensures 0 in RUN[10].reports && RUN[11].reports == map[]
  {
    AllSteps();
    ReportFinished();
  }

  lemma ReportFinished()
    ensures Finished(RUN, ACTIONS, 11, 0)
  {
    assert ReadAt(RUN, 3, 0, Success) && StoredAt(RUN, ACTIONS, 8, 0, Success);
  }
}
