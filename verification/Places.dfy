/** The leaderboard places that the tables give, counted result by result. */
module Places {
  import opened Wrappers
  import opened Models
  import opened Selection
  import opened TaskScore
  import opened Leaderboard
  import opened LeaderboardBuild
  import opened Database

  /** A result of the student that counts: green, on time, not banned, and the student is in the group and has a repository. */
  ghost predicate HasResult(t: Tables, group: string, task: string, deadline: Time, login: string, id: int) {
    && id in t.benchmarks && t.benchmarks[id].gitlabLogin == login && t.benchmarks[id].task == task
    && id in t.pipelines && t.pipelines[id].status == Success && t.pipelines[id].task == task && t.pipelines[id].startedAt <= deadline
    && id !in t.bans
    && login in t.users && t.users[login].groupName == group && t.users[login].project != None
  }

  /** The smaller metric wins, then the earlier submission, then the lower id. */
  ghost predicate IsBetter(t: Tables, a: int, b: int) {
    && a in t.benchmarks && a in t.pipelines && b in t.benchmarks && b in t.pipelines
    && var x, y := t.benchmarks[a].metric, t.benchmarks[b].metric;
       var p, q := t.pipelines[a].startedAt, t.pipelines[b].startedAt;
       x < y || (x == y && (p < q || (p == q && a < b)))
  }

  /** Some result of the rival is better than every one of the student's. */
  ghost predicate Outdoes(t: Tables, group: string, task: string, deadline: Time, rival: string, login: string) {
    exists a :: HasResult(t, group, task, deadline, rival, a)
      && forall b :: HasResult(t, group, task, deadline, login, b) ==> IsBetter(t, a, b)
  }

  ghost function Field(t: Tables, group: string, task: string, deadline: Time): set<string> {
    set id | id in t.benchmarks && HasResult(t, group, task, deadline, t.benchmarks[id].gitlabLogin, id) :: t.benchmarks[id].gitlabLogin
  }

  /** One more than the students who outdo this one, of all who have a result. */
  ghost predicate IsPlace(t: Tables, group: string, task: string, deadline: Time, login: string, place: Option<Place>) {
    var field := Field(t, group, task, deadline);
    if login !in field then place == None
    else place == Some(Place(1 + |set rival | rival in field && Outdoes(t, group, task, deadline, rival, login)|, |field|))
  }

  lemma ResultRows(rows: seq<GroupBenchmark>, t: Tables, group: string, task: string, deadline: Time, login: string, id: int)
    requires ListsBenchmarks(rows, t, group)
    ensures HasResult(t, group, task, deadline, login, id) <==> exists row :: row in rows && row.pipelineID == id && Counts(task, deadline, login)(row)
    ensures forall row :: row in rows && row.pipelineID == id ==>
              id in t.benchmarks && id in t.pipelines && row.metric == t.benchmarks[id].metric && row.submittedAt == t.pipelines[id].startedAt
  {
    if HasResult(t, group, task, deadline, login, id) {
      var row := GroupBenchmark(login, t.users[login].firstName, t.users[login].lastName, task, id, t.benchmarks[id].metric, t.pipelines[id].startedAt);
      JoinedResults(rows, t, group, row);
      assert row in rows;
    }
    forall row | row in rows && row.pipelineID == id
      ensures IsGroupBenchmark(t, group, row)
    {
      JoinedResults(rows, t, group, row);
    }
  }

  lemma FieldIs(rows: seq<GroupBenchmark>, t: Tables, group: string, task: string, deadline: Time)
    requires ListsBenchmarks(rows, t, group)
    ensures Field(t, group, task, deadline) == Contenders(rows, task, deadline)
  {
    forall login
      ensures login in Field(t, group, task, deadline) <==> login in Contenders(rows, task, deadline)
    {
      if login in Field(t, group, task, deadline) {
        var id :| HasResult(t, group, task, deadline, login, id);
        ResultRows(rows, t, group, task, deadline, login, id);
      }
      if login in Contenders(rows, task, deadline) {
        var row :| row in rows && Counts(task, deadline, login)(row);
        ResultRows(rows, t, group, task, deadline, login, row.pipelineID);
        assert HasResult(t, group, task, deadline, t.benchmarks[row.pipelineID].gitlabLogin, row.pipelineID);
      }
    }
  }

  lemma BeatsIs(rows: seq<GroupBenchmark>, t: Tables, group: string, task: string, deadline: Time, rival: string, login: string)
    requires ListsBenchmarks(rows, t, group) && login in Contenders(rows, task, deadline)
    ensures Beats(rows, task, deadline, rival, login) <==> Outdoes(t, group, task, deadline, rival, login)
  {
    BestResultIsRow(rows, task, deadline, rival);
    BestResultIsRow(rows, task, deadline, login);
    ContenderHasBest(rows, task, deadline, login);
    var own := BestResult(rows, task, deadline, login).value;
    if Beats(rows, task, deadline, rival, login) {
      OutdoneBy(rows, t, group, task, deadline, rival, login, BestResult(rows, task, deadline, rival).value, own);
    }
    if Outdoes(t, group, task, deadline, rival, login) {
      var a :| HasResult(t, group, task, deadline, rival, a)
               && forall b :: HasResult(t, group, task, deadline, login, b) ==> IsBetter(t, a, b);
      ResultRows(rows, t, group, task, deadline, rival, a);
      ResultRows(rows, t, group, task, deadline, login, own.pipelineID);
      var row :| row in rows && row.pipelineID == a && Counts(task, deadline, rival)(row);
      assert ResultLess(row, own);
      EntryOrder();
    }
  }

  lemma OutdoneBy(
    rows: seq<GroupBenchmark>, t: Tables, group: string, task: string, deadline: Time, rival: string, login: string,
    theirs: GroupBenchmark, own: GroupBenchmark)
    requires ListsBenchmarks(rows, t, group)
    requires theirs in rows && Counts(task, deadline, rival)(theirs)
    requires IsLeast(own, rows, Counts(task, deadline, login), ResultLess) && ResultLess(theirs, own)
    ensures Outdoes(t, group, task, deadline, rival, login)
  {
    var a := theirs.pipelineID;
    ResultRows(rows, t, group, task, deadline, rival, a);
    forall b | HasResult(t, group, task, deadline, login, b)
      ensures IsBetter(t, a, b)
    {
      ResultRows(rows, t, group, task, deadline, login, b);
      var row :| row in rows && row.pipelineID == b && Counts(task, deadline, login)(row);
      assert !ResultLess(row, own);
    }
  }

  /** Any listing of the join gives the place that the tables give. */
  lemma PlaceIs(rows: seq<GroupBenchmark>, t: Tables, group: string, task: string, deadline: Time, login: string)
    requires ListsBenchmarks(rows, t, group)
    ensures IsPlace(t, group, task, deadline, login, PlaceOf(rows, task, deadline, login))
  {
    FieldIs(rows, t, group, task, deadline);
    if login in Contenders(rows, task, deadline) {
      forall rival
        ensures Beats(rows, task, deadline, rival, login) <==> Outdoes(t, group, task, deadline, rival, login)
      {
        BeatsIs(rows, t, group, task, deadline, rival, login);
      }
      assert Ahead(rows, task, deadline, login)
          == set rival | rival in Field(t, group, task, deadline) && Outdoes(t, group, task, deadline, rival, login);
    }
  }

  // What a board shows

  /** The student's best result, with the full name. */
  ghost predicate ShowsBest(t: Tables, group: string, task: string, deadline: Time, e: LeaderboardEntry) {
    && HasResult(t, group, task, deadline, e.gitlabLogin, e.pipelineID)
    && e.name == t.users[e.gitlabLogin].firstName + " " + t.users[e.gitlabLogin].lastName
    && e.metric == t.benchmarks[e.pipelineID].metric && e.submittedAt == t.pipelines[e.pipelineID].startedAt
    && forall b :: HasResult(t, group, task, deadline, e.gitlabLogin, b) && b != e.pipelineID ==> IsBetter(t, e.pipelineID, b)
  }

  lemma BestIsShown(rows: seq<GroupBenchmark>, t: Tables, group: string, task: string, deadline: Time, login: string)
    requires ListsBenchmarks(rows, t, group) && BestResult(rows, task, deadline, login).Some?
    ensures ShowsBest(t, group, task, deadline, EntryOf(BestResult(rows, task, deadline, login).value))
  {
    BestResultIsRow(rows, task, deadline, login);
    var own := BestResult(rows, task, deadline, login).value;
    JoinedResults(rows, t, group, own);
    ResultRows(rows, t, group, task, deadline, login, own.pipelineID);
    forall b | HasResult(t, group, task, deadline, login, b) && b != own.pipelineID
      ensures IsBetter(t, own.pipelineID, b)
    {
      ResultRows(rows, t, group, task, deadline, login, b);
      var row :| row in rows && row.pipelineID == b && Counts(task, deadline, login)(row);
      assert !ResultLess(row, own);
    }
  }

  /** Every student with a counting result is on the board once with the best one, better results first. */
  lemma BoardShows(entries: seq<LeaderboardEntry>, rows: seq<GroupBenchmark>, t: Tables, group: string, task: string, deadline: Time)
    requires ListsBenchmarks(rows, t, group) && IsBoard(entries, rows, task, deadline)
    ensures forall i :: 0 <= i < |entries| ==> ShowsBest(t, group, task, deadline, entries[i])
    ensures forall i, j :: 0 <= i < j < |entries| ==>
              entries[i].gitlabLogin != entries[j].gitlabLogin && IsBetter(t, entries[i].pipelineID, entries[j].pipelineID)
    ensures forall login :: login in Field(t, group, task, deadline) <==> exists i :: 0 <= i < |entries| && entries[i].gitlabLogin == login
  {
    forall i | 0 <= i < |entries|
      ensures ShowsBest(t, group, task, deadline, entries[i])
    {
      BestIsShown(rows, t, group, task, deadline, entries[i].gitlabLogin);
    }
    BenchmarksDistinct(rows, t, group);
    BoardStrictlySorted(entries, rows, task, deadline);
    FieldIs(rows, t, group, task, deadline);
    forall login
      ensures login in Field(t, group, task, deadline) <==> exists i :: 0 <= i < |entries| && entries[i].gitlabLogin == login
    {
      ContenderHasBest(rows, task, deadline, login);
    }
  }

  // Deadlines of the boards

  ghost predicate HasBonusTask(group: TaskGroup, task: string) {
    exists i :: 0 <= i < |group.tasks| && group.tasks[i].task == task && group.tasks[i].leaderboard != None
  }

  /** The last group with a bonus task of the name gives the board its deadline. */
  ghost predicate IsBoardDeadline(assignments: seq<TaskGroup>, task: string, deadline: Time) {
    exists k :: 0 <= k < |assignments| && HasBonusTask(assignments[k], task) && assignments[k].deadline == deadline
      && forall j :: k < j < |assignments| ==> !HasBonusTask(assignments[j], task)
  }

  lemma LastDecides(front: seq<TaskGroup>, last: TaskGroup, task: string, deadline: Time)
    ensures IsBoardDeadline(front + [last], task, deadline)
            <==> if HasBonusTask(last, task) then deadline == last.deadline else IsBoardDeadline(front, task, deadline)
  {
    var all := front + [last];
    assert all[|front|] == last;
    if k :| 0 <= k < |all| && HasBonusTask(all[k], task) && all[k].deadline == deadline
            && forall j :: k < j < |all| ==> !HasBonusTask(all[j], task) {
      assert k < |front| ==> !HasBonusTask(all[|front|], task) && HasBonusTask(front[k], task);
      assert forall j :: k < j < |front| ==> all[j] == front[j];
    }
    if k :| 0 <= k < |front| && HasBonusTask(front[k], task) && front[k].deadline == deadline
            && forall j :: k < j < |front| ==> !HasBonusTask(front[j], task) {
      assert HasBonusTask(all[k], task);
    }
  }

  lemma {:induction false} BoardDeadlineIs(assignments: seq<TaskGroup>, task: string)
    ensures forall deadline: Time :: BoardDeadline(assignments, task) == Some(deadline) <==> IsBoardDeadline(assignments, task, deadline)
    ensures BoardDeadline(assignments, task) == None <==> forall k :: 0 <= k < |assignments| ==> !HasBonusTask(assignments[k], task)
  {
    if assignments != [] {
      var front, last := assignments[..|assignments| - 1], assignments[|assignments| - 1];
      BoardDeadlineIs(front, task);
      assert HasBoard(last.tasks, task) <==> HasBonusTask(last, task);
      assert assignments == front + [last];
      forall deadline: Time
        ensures IsBoardDeadline(front + [last], task, deadline)
                <==> if HasBonusTask(last, task) then deadline == last.deadline else IsBoardDeadline(front, task, deadline)
      {
        LastDecides(front, last, task, deadline);
      }
    }
  }
}
