/** Filling the boards in place: newLeaderboards and fillLeaderboards of internal/scorer/leaderboard.go. */
module LeaderboardBuild {
  import opened Wrappers
  import opened Models
  import opened Selection
  import opened TaskScore
  import opened Leaderboard

  class TaskLeaderboard {
    const deadline: Time
    var entries: seq<LeaderboardEntry>
    var ranks: map<string, int>

    constructor (deadline: Time)
      ensures this.deadline == deadline && entries == [] && ranks == map[]
    {
      this.deadline, entries, ranks := deadline, [], map[];
    }

    function Rank(login: string): Option<int>
      reads this
    {
      if login in ranks then Some(ranks[login]) else None
    }

    function Placing(login: string): Option<Place>
      reads this
    {
      if login in ranks then Some(Place(ranks[login], |entries|)) else None
    }

    /** The ranks invert the entries. */
    ghost predicate Ranked()
      reads this
    {
      && (forall i :: 0 <= i < |entries| ==> entries[i].gitlabLogin in ranks && ranks[entries[i].gitlabLogin] == i + 1)
      && ranks.Keys == LoginsOf(entries)
    }

    ghost predicate Filled(results: seq<GroupBenchmark>, task: string)
      reads this
    {
      Ranked() && IsBoard(entries, results, task, deadline)
    }
  }

  /** The deadline a board gets: that of the last group with a benchmark task of this name. */
  function BoardDeadline(assignments: seq<TaskGroup>, task: string): Option<Time> {
    if assignments == [] then None
    else
      var last := assignments[|assignments| - 1];
      if HasBoard(last.tasks, task) then Some(last.deadline) else BoardDeadline(assignments[..|assignments| - 1], task)
  }

  predicate HasBoard(tasks: seq<Task>, task: string) {
    exists t :: t in tasks && t.task == task && t.leaderboard.Some?
  }

  ghost predicate EmptyBoards(boards: map<string, TaskLeaderboard>, assignments: seq<TaskGroup>)
    reads boards.Values
  {
    && (forall task :: task in boards <==> BoardDeadline(assignments, task).Some?)
    && (forall task :: task in boards ==>
          && boards[task].deadline == BoardDeadline(assignments, task).value
          && boards[task].entries == [] && boards[task].ranks == map[])
    && Separate(boards)
  }

  ghost predicate Separate(boards: map<string, TaskLeaderboard>) {
    forall a, b :: a in boards && b in boards && a != b ==> boards[a] != boards[b]
  }

  method NewLeaderboards(assignments: seq<TaskGroup>) returns (boards: map<string, TaskLeaderboard>)
    ensures fresh(boards.Values)
    ensures EmptyBoards(boards, assignments)
  {
    boards := map[];
    for i := 0 to |assignments|
      invariant forall task :: task in boards ==> fresh(boards[task])
      invariant EmptyBoards(boards, assignments[..i])
    {
      var group := assignments[i];
      assert assignments[..i + 1][..i] == assignments[..i];
      ghost var before := boards;
      for j := 0 to |group.tasks|
        invariant forall task :: task in boards ==> fresh(boards[task])
        invariant Separate(boards)
        invariant forall task :: task in boards <==> task in before || HasBoard(group.tasks[..j], task)
        invariant forall task :: task in boards ==>
          && boards[task].deadline == (if HasBoard(group.tasks[..j], task) then group.deadline else before[task].deadline)
          && boards[task].entries == [] && boards[task].ranks == map[]
      {
        var task := group.tasks[j];
        assert forall t :: t in group.tasks[..j + 1] <==> t in group.tasks[..j] || t == task;
        if task.leaderboard.Some? {
          var board := new TaskLeaderboard(group.deadline);
          boards := boards[task.task := board];
        }
      }
      assert group.tasks[..|group.tasks|] == group.tasks;
    }
    assert assignments[..|assignments|] == assignments;
  }

  type EntriesByLogin = map<string, LeaderboardEntry>

  /** entriesByLogin holds the best on-time entry of every student for the task. */
  ghost predicate HoldsBest(entriesByLogin: EntriesByLogin, results: seq<GroupBenchmark>, task: string, deadline: Time) {
    forall login ::
      var best := BestResult(results, task, deadline, login);
      && (login in entriesByLogin <==> best.Some?)
      && (login in entriesByLogin ==> EntryOf(best.value) == entriesByLogin[login])
  }

  ghost predicate HoldsAllBest(best: map<string, EntriesByLogin>, boards: map<string, TaskLeaderboard>, results: seq<GroupBenchmark>) {
    && best.Keys <= boards.Keys
    && forall task :: task in boards ==>
         HoldsBest(EntriesOf(best, task), results, task, boards[task].deadline)
  }

  lemma BestResultStep(results: seq<GroupBenchmark>, result: GroupBenchmark, task: string, deadline: Time, login: string)
    ensures var prev := BestResult(results, task, deadline, login);
            BestResult(results + [result], task, deadline, login) ==
              if Counts(task, deadline, login)(result) && (prev.None? || ResultLess(result, prev.value)) then Some(result) else prev
  {
    var rows := results + [result];
    BestStep(rows, |results|, Counts(task, deadline, login), ResultLess);
    assert rows[..|results|] == results && rows[..|results| + 1] == rows;
  }

  function Improve(entriesByLogin: EntriesByLogin, result: GroupBenchmark): EntriesByLogin {
    var login, entry := result.gitlabLogin, EntryOf(result);
    if login !in entriesByLogin || EntryLess(entry, entriesByLogin[login])
    then entriesByLogin[login := entry]
    else entriesByLogin
  }

  lemma ImproveStep(entriesByLogin: EntriesByLogin, results: seq<GroupBenchmark>, result: GroupBenchmark, task: string, deadline: Time)
    requires HoldsBest(entriesByLogin, results, task, deadline)
    ensures var counts := result.task == task && result.submittedAt <= deadline;
            HoldsBest(if counts then Improve(entriesByLogin, result) else entriesByLogin, results + [result], task, deadline)
  {
    forall login
      ensures var prev := BestResult(results, task, deadline, login);
              BestResult(results + [result], task, deadline, login) ==
                if Counts(task, deadline, login)(result) && (prev.None? || ResultLess(result, prev.value)) then Some(result) else prev
    {
      BestResultStep(results, result, task, deadline, login);
    }
  }

  function EntriesOf(best: map<string, EntriesByLogin>, task: string): EntriesByLogin {
    if task in best then best[task] else map[]
  }

  /** The first loop: the best entry per task and student. */
  method CollectBest(boards: map<string, TaskLeaderboard>, results: seq<GroupBenchmark>) returns (best: map<string, EntriesByLogin>)
    ensures HoldsAllBest(best, boards, results)
  {
    best := map[];
    for i := 0 to |results|
      invariant HoldsAllBest(best, boards, results[..i])
    {
      var result := results[i];
      assert results[..i + 1] == results[..i] + [result];
      forall task | task in boards
        ensures HoldsBest(
                  if result.task == task && result.submittedAt <= boards[task].deadline
                  then Improve(EntriesOf(best, task), result) else EntriesOf(best, task),
                  results[..i + 1], task, boards[task].deadline)
      {
        ImproveStep(EntriesOf(best, task), results[..i], result, task, boards[task].deadline);
      }
      if result.task !in boards || boards[result.task].deadline < result.submittedAt {
        continue;
      }
      best := best[result.task := Improve(EntriesOf(best, result.task), result)];
    }
    assert results[..|results|] == results;
  }

  /** A sorted list of the entries of the given students. */
  ghost predicate SortedEntries(entries: seq<LeaderboardEntry>, entriesByLogin: EntriesByLogin, logins: set<string>)
    requires logins <= entriesByLogin.Keys
  {
    && Sorted(entries, EntryLess)
    && DistinctLogins(entries)
    && (forall e :: e in entries ==> e.gitlabLogin in logins && e == entriesByLogin[e.gitlabLogin])
    && (forall login :: login in logins ==> entriesByLogin[login] in entries)
  }

  lemma InsertDistinct(before: seq<LeaderboardEntry>, entry: LeaderboardEntry, at: nat)
    requires DistinctLogins(before) && at <= |before|
    requires forall e :: e in before ==> e.gitlabLogin != entry.gitlabLogin
    ensures DistinctLogins(before[..at] + [entry] + before[at..])
  {
    var after := before[..at] + [entry] + before[at..];
    assert forall i :: 0 <= i < at ==> after[i] == before[i];
    assert forall i :: at < i < |after| ==> after[i] == before[i - 1];
  }

  lemma SortedStep(before: seq<LeaderboardEntry>, after: seq<LeaderboardEntry>, at: nat, entriesByLogin: EntriesByLogin, logins: set<string>, login: string)
    requires logins <= entriesByLogin.Keys && SortedEntries(before, entriesByLogin, logins)
    requires login in entriesByLogin && login !in logins && entriesByLogin[login].gitlabLogin == login
    requires at <= |before| && after == before[..at] + [entriesByLogin[login]] + before[at..]
    requires Sorted(after, EntryLess)
    ensures SortedEntries(after, entriesByLogin, logins + {login})
  {
    InsertDistinct(before, entriesByLogin[login], at);
    assert before == before[..at] + before[at..];
    assert forall e :: e in after <==> e in before || e == entriesByLogin[login];
  }

  method SortedBest(entriesByLogin: EntriesByLogin) returns (entries: seq<LeaderboardEntry>)
    requires forall login :: login in entriesByLogin ==> entriesByLogin[login].gitlabLogin == login
    ensures SortedEntries(entries, entriesByLogin, entriesByLogin.Keys)
  {
    entries := [];
    var rest := entriesByLogin.Keys;
    while rest != {}
      invariant rest <= entriesByLogin.Keys
      invariant SortedEntries(entries, entriesByLogin, entriesByLogin.Keys - rest)
      decreases rest
    {
      var login :| login in rest;
      ghost var before := entries;
      ghost var at;
      EntryOrder();
      entries, at := Insert(entries, entriesByLogin[login], EntryLess);
      SortedStep(before, entries, at, entriesByLogin, entriesByLogin.Keys - rest, login);
      assert entriesByLogin.Keys - rest + {login} == entriesByLogin.Keys - (rest - {login});
      rest := rest - {login};
    }
    assert entriesByLogin.Keys - rest == entriesByLogin.Keys;
  }

  lemma SortedEntriesAreBoard(entries: seq<LeaderboardEntry>, entriesByLogin: EntriesByLogin, results: seq<GroupBenchmark>, task: string, deadline: Time)
    requires HoldsBest(entriesByLogin, results, task, deadline)
    requires SortedEntries(entries, entriesByLogin, entriesByLogin.Keys)
    ensures IsBoard(entries, results, task, deadline)
  {
    forall login | BestResult(results, task, deadline, login).Some?
      ensures exists i :: 0 <= i < |entries| && entries[i].gitlabLogin == login
    {
      var i :| 0 <= i < |entries| && entries[i] == entriesByLogin[login];
      BestResultIsRow(results, task, deadline, login);
      assert entries[i].gitlabLogin == login;
    }
    forall i | 0 <= i < |entries|
      ensures var best := BestResult(results, task, deadline, entries[i].gitlabLogin);
              best.Some? && EntryOf(best.value) == entries[i]
    {
      assert entries[i] in entries;
    }
  }

  /** The second loop, for one task: append the entries in any order, sort, rank. */
  method FillBoard(board: TaskLeaderboard, entriesByLogin: EntriesByLogin, ghost results: seq<GroupBenchmark>, ghost task: string)
    requires board.entries == [] && board.ranks == map[]
    requires HoldsBest(entriesByLogin, results, task, board.deadline)
    modifies board
    ensures board.Filled(results, task)
  {
    forall login | login in entriesByLogin
      ensures entriesByLogin[login].gitlabLogin == login
    {
      BestResultIsRow(results, task, board.deadline, login);
    }
    var sorted := SortedBest(entriesByLogin);
    SortedEntriesAreBoard(sorted, entriesByLogin, results, task, board.deadline);
    board.entries := sorted;
    RankEntries(board);
  }

  method RankEntries(board: TaskLeaderboard)
    requires DistinctLogins(board.entries) && board.ranks == map[]
    modifies board`ranks
    ensures board.Ranked()
  {
    for i := 0 to |board.entries|
      invariant forall k :: 0 <= k < i ==>
        board.entries[k].gitlabLogin in board.ranks && board.ranks[board.entries[k].gitlabLogin] == k + 1
      invariant board.ranks.Keys == LoginsOf(board.entries[..i])
    {
      assert board.entries[..i + 1] == board.entries[..i] + [board.entries[i]];
      board.ranks := board.ranks[board.entries[i].gitlabLogin := i + 1];
    }
    assert board.entries[..|board.entries|] == board.entries;
  }

  ghost predicate Untouched(boards: map<string, TaskLeaderboard>, tasks: set<string>)
    requires tasks <= boards.Keys
    reads boards.Values
  {
    forall task :: task in tasks ==> boards[task].entries == [] && boards[task].ranks == map[]
  }

  method FillLeaderboards(boards: map<string, TaskLeaderboard>, results: seq<GroupBenchmark>)
    requires Separate(boards) && Untouched(boards, boards.Keys)
    modifies boards.Values
    ensures forall task :: task in boards ==> boards[task].Filled(results, task)
  {
    var best := CollectBest(boards, results);
    var rest := best.Keys;
    while rest != {}
      invariant rest <= best.Keys
      invariant Untouched(boards, boards.Keys - (best.Keys - rest))
      invariant forall task :: task in best && task !in rest ==> boards[task].Filled(results, task)
      decreases rest
    {
      var task :| task in rest;
      FillBoard(boards[task], best[task], results, task);
      rest := rest - {task};
    }
    forall task | task in boards && task !in best
      ensures boards[task].Filled(results, task)
    {
      EmptyIsFilled(boards[task], results, task);
    }
  }

  /** A board without on-time results is complete from the start. */
  lemma EmptyIsFilled(board: TaskLeaderboard, results: seq<GroupBenchmark>, task: string)
    requires board.entries == [] && board.ranks == map[] && HoldsBest(map[], results, task, board.deadline)
    ensures board.Filled(results, task)
  {
  }

  /** On a filled board a student's rank is the counted place. */
  lemma PlacingIsCounted(board: TaskLeaderboard, results: seq<GroupBenchmark>, task: string, login: string)
    requires DistinctPipelines(results) && board.Filled(results, task)
    ensures board.Placing(login) == PlaceOf(results, task, board.deadline, login)
  {
    BoardLogins(board.entries, results, task, board.deadline);
    if login in board.ranks {
      var i :| 0 <= i < |board.entries| && board.entries[i].gitlabLogin == login;
      RankCountsTheBetter(board.entries, results, task, board.deadline, i);
    }
  }
}
