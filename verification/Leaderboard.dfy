/** Leaderboards of the benchmark tasks: internal/scorer/leaderboard.go. */
module Leaderboard {
  import opened Wrappers
  import opened Models
  import opened Selection
  import opened TaskScore

  /** A row of the join behind ListGroupBenchmarks. */
  datatype GroupBenchmark = GroupBenchmark(
    gitlabLogin: string,
    firstName: string,
    lastName: string,
    task: string,
    pipelineID: int,
    metric: real,
    submittedAt: Time)

  datatype LeaderboardEntry = LeaderboardEntry(
    gitlabLogin: string,
    name: string,
    metric: real,
    submittedAt: Time,
    pipelineID: int)

  function EntryOf(result: GroupBenchmark): LeaderboardEntry {
    LeaderboardEntry(result.gitlabLogin, result.firstName + " " + result.lastName, result.metric, result.submittedAt, result.pipelineID)
  }

  predicate EntryLess(left: LeaderboardEntry, right: LeaderboardEntry) {
    if left.metric != right.metric then left.metric < right.metric
    else if left.submittedAt != right.submittedAt then left.submittedAt < right.submittedAt
    else left.pipelineID < right.pipelineID
  }

  predicate ResultLess(left: GroupBenchmark, right: GroupBenchmark) {
    EntryLess(EntryOf(left), EntryOf(right))
  }

  /** An on-time result of the student for the task. */
  function Counts(task: string, deadline: Time, login: string): GroupBenchmark -> bool {
    (result: GroupBenchmark) => result.task == task && result.gitlabLogin == login && result.submittedAt <= deadline
  }

  function BestResult(results: seq<GroupBenchmark>, task: string, deadline: Time, login: string): Option<GroupBenchmark> {
    Best(results, Counts(task, deadline, login), ResultLess)
  }

  /** Pipeline ids are unique in the benchmark table. */
  ghost predicate DistinctPipelines(results: seq<GroupBenchmark>) {
    forall a, b :: a in results && b in results && a.pipelineID == b.pipelineID ==> a == b
  }

  ghost predicate DistinctLogins(entries: seq<LeaderboardEntry>) {
    forall i, j :: 0 <= i < j < |entries| ==> entries[i].gitlabLogin != entries[j].gitlabLogin
  }

  /**
   * One entry for each student with an on-time result, namely the student's best one,
   * best entries first.
   */
  ghost predicate IsBoard(entries: seq<LeaderboardEntry>, results: seq<GroupBenchmark>, task: string, deadline: Time) {
    && Sorted(entries, EntryLess)
    && DistinctLogins(entries)
    && (forall i :: 0 <= i < |entries| ==>
          var best := BestResult(results, task, deadline, entries[i].gitlabLogin);
          best.Some? && EntryOf(best.value) == entries[i])
    && (forall login :: BestResult(results, task, deadline, login).Some? ==>
          exists i :: 0 <= i < |entries| && entries[i].gitlabLogin == login)
  }

  lemma EntryOrder()
    ensures StrictWeakOrder(EntryLess)
    ensures StrictWeakOrder(ResultLess)
  {
  }

  lemma BestResultIsRow(results: seq<GroupBenchmark>, task: string, deadline: Time, login: string)
    ensures var best := BestResult(results, task, deadline, login);
            && (best.None? <==> forall row :: row in results ==> !Counts(task, deadline, login)(row))
            && (best.Some? ==> IsLeast(best.value, results, Counts(task, deadline, login), ResultLess))
  {
    EntryOrder();
    BestIsLeast(results, Counts(task, deadline, login), ResultLess);
  }

  lemma BestResultIgnoresOrder(a: seq<GroupBenchmark>, b: seq<GroupBenchmark>, task: string, deadline: Time, login: string)
    requires SameRows(a, b) && DistinctPipelines(a)
    ensures BestResult(a, task, deadline, login) == BestResult(b, task, deadline, login)
  {
    EntryOrder();
    BestResultIsRow(a, task, deadline, login);
    BestResultIsRow(b, task, deadline, login);
    BestIgnoresOrder(a, b, Counts(task, deadline, login), ResultLess);
  }

  /** With unique pipeline ids no two entries tie. */
  lemma BoardStrictlySorted(entries: seq<LeaderboardEntry>, results: seq<GroupBenchmark>, task: string, deadline: Time)
    requires DistinctPipelines(results) && IsBoard(entries, results, task, deadline)
    ensures StrictlySorted(entries, EntryLess)
  {
    forall i, j | 0 <= i < j < |entries|
      ensures EntryLess(entries[i], entries[j])
    {
      BestResultIsRow(results, task, deadline, entries[i].gitlabLogin);
      BestResultIsRow(results, task, deadline, entries[j].gitlabLogin);
      var a := BestResult(results, task, deadline, entries[i].gitlabLogin).value;
      var b := BestResult(results, task, deadline, entries[j].gitlabLogin).value;
      assert a in results && b in results && a.gitlabLogin != b.gitlabLogin;
      assert entries[i].pipelineID != entries[j].pipelineID;
    }
  }

  /** The board does not depend on the order of the rows or of any map iteration. */
  lemma BoardUnique(a: seq<LeaderboardEntry>, b: seq<LeaderboardEntry>, rowsA: seq<GroupBenchmark>, rowsB: seq<GroupBenchmark>, task: string, deadline: Time)
    requires SameRows(rowsA, rowsB) && DistinctPipelines(rowsA)
    requires IsBoard(a, rowsA, task, deadline) && IsBoard(b, rowsB, task, deadline)
    ensures a == b
  {
    BoardStrictlySorted(a, rowsA, task, deadline);
    BoardStrictlySorted(b, rowsB, task, deadline);
    BoardWithin(a, b, rowsA, rowsB, task, deadline);
    BoardWithin(b, a, rowsB, rowsA, task, deadline);
    EntryOrder();
    StrictlySortedUnique(a, b, EntryLess);
  }

  lemma BoardWithin(a: seq<LeaderboardEntry>, b: seq<LeaderboardEntry>, rowsA: seq<GroupBenchmark>, rowsB: seq<GroupBenchmark>, task: string, deadline: Time)
    requires SameRows(rowsA, rowsB) && DistinctPipelines(rowsA)
    requires IsBoard(a, rowsA, task, deadline) && IsBoard(b, rowsB, task, deadline)
    ensures forall e :: e in a ==> e in b
  {
    forall i | 0 <= i < |a|
      ensures a[i] in b
    {
      BestResultIgnoresOrder(rowsA, rowsB, task, deadline, a[i].gitlabLogin);
      var j :| 0 <= j < |b| && b[j].gitlabLogin == a[i].gitlabLogin;
    }
  }

  /** Students with an on-time result. */
  ghost function Contenders(results: seq<GroupBenchmark>, task: string, deadline: Time): set<string> {
    set result | result in results && result.task == task && result.submittedAt <= deadline :: result.gitlabLogin
  }

  ghost predicate Beats(results: seq<GroupBenchmark>, task: string, deadline: Time, rival: string, login: string) {
    var theirs, own := BestResult(results, task, deadline, rival), BestResult(results, task, deadline, login);
    theirs.Some? && own.Some? && ResultLess(theirs.value, own.value)
  }

  ghost function Ahead(results: seq<GroupBenchmark>, task: string, deadline: Time, login: string): set<string> {
    set rival | rival in Contenders(results, task, deadline) && Beats(results, task, deadline, rival, login)
  }

  /** A student's place, by counting: one more than the students strictly ahead. */
  ghost function PlaceOf(results: seq<GroupBenchmark>, task: string, deadline: Time, login: string): (place: Option<Place>)
  {
    if login in Contenders(results, task, deadline)
    then Some(Place(1 + |Ahead(results, task, deadline, login)|, |Contenders(results, task, deadline)|))
    else None
  }

  lemma ContenderHasBest(results: seq<GroupBenchmark>, task: string, deadline: Time, login: string)
    ensures login in Contenders(results, task, deadline) <==> BestResult(results, task, deadline, login).Some?
  {
    BestResultIsRow(results, task, deadline, login);
  }

  lemma {:induction false} SubsetSize<T>(a: set<T>, b: set<T>)
    requires a <= b
    ensures |a| <= |b|
    ensures a != b ==> |a| < |b|
  {
    assert b == a + (b - a) && a !! b - a;
  }

  lemma PlaceValid(results: seq<GroupBenchmark>, task: string, deadline: Time, login: string)
    ensures ValidPlace(PlaceOf(results, task, deadline, login))
  {
    var all, ahead := Contenders(results, task, deadline), Ahead(results, task, deadline, login);
    if login in all {
      EntryOrder();
      assert login !in ahead;
      SubsetSize(ahead, all);
    }
  }

  ghost function LoginsOf(entries: seq<LeaderboardEntry>): set<string> {
    set e | e in entries :: e.gitlabLogin
  }

  lemma {:induction false} DistinctLoginsCount(entries: seq<LeaderboardEntry>)
    requires DistinctLogins(entries)
    ensures |LoginsOf(entries)| == |entries|
  {
    if entries != [] {
      var front, last := entries[..|entries| - 1], entries[|entries| - 1];
      DistinctLoginsCount(front);
      assert entries == front + [last];
      assert LoginsOf(entries) == LoginsOf(front) + {last.gitlabLogin};
    }
  }

  lemma AheadIsEarlier(entries: seq<LeaderboardEntry>, results: seq<GroupBenchmark>, task: string, deadline: Time, at: nat, i: nat)
    requires StrictlySorted(entries, EntryLess) && IsBoard(entries, results, task, deadline)
    requires at < |entries| && i < |entries|
    ensures Beats(results, task, deadline, entries[i].gitlabLogin, entries[at].gitlabLogin) <==> i < at
  {
    assert EntryLess(entries[i], entries[at]) <==> i < at;
  }

  lemma AheadIsPrefix(entries: seq<LeaderboardEntry>, results: seq<GroupBenchmark>, task: string, deadline: Time, at: nat)
    requires StrictlySorted(entries, EntryLess) && IsBoard(entries, results, task, deadline) && at < |entries|
    ensures Ahead(results, task, deadline, entries[at].gitlabLogin) == LoginsOf(entries[..at])
  {
    BoardLogins(entries, results, task, deadline);
    forall rival
      ensures rival in Ahead(results, task, deadline, entries[at].gitlabLogin) <==> rival in LoginsOf(entries[..at])
    {
      if rival in LoginsOf(entries) {
        var i: nat :| i < |entries| && entries[i].gitlabLogin == rival;
        AheadIsEarlier(entries, results, task, deadline, at, i);
        assert i < at ==> entries[i] in entries[..at];
      }
      assert rival in LoginsOf(entries[..at]) ==> rival in LoginsOf(entries);
    }
  }

  /** The position on the board is the counted place. */
  lemma RankCountsTheBetter(entries: seq<LeaderboardEntry>, results: seq<GroupBenchmark>, task: string, deadline: Time, at: nat)
    requires DistinctPipelines(results) && IsBoard(entries, results, task, deadline) && at < |entries|
    ensures PlaceOf(results, task, deadline, entries[at].gitlabLogin) == Some(Place(at + 1, |entries|))
  {
    BoardStrictlySorted(entries, results, task, deadline);
    BoardLogins(entries, results, task, deadline);
    DistinctLoginsCount(entries);
    DistinctLoginsCount(entries[..at]);
    AheadIsPrefix(entries, results, task, deadline, at);
    assert entries[at] in entries;
  }

  lemma BoardLogins(entries: seq<LeaderboardEntry>, results: seq<GroupBenchmark>, task: string, deadline: Time)
    requires IsBoard(entries, results, task, deadline)
    ensures LoginsOf(entries) == Contenders(results, task, deadline)
  {
    forall login
      ensures login in LoginsOf(entries) <==> login in Contenders(results, task, deadline)
    {
      ContenderHasBest(results, task, deadline, login);
      if login in Contenders(results, task, deadline) {
        var i :| 0 <= i < |entries| && entries[i].gitlabLogin == login;
        assert entries[i] in entries;
      }
    }
  }

  lemma PlaceIgnoresOrder(a: seq<GroupBenchmark>, b: seq<GroupBenchmark>, task: string, deadline: Time, login: string)
    requires SameRows(a, b) && DistinctPipelines(a)
    ensures PlaceOf(a, task, deadline, login) == PlaceOf(b, task, deadline, login)
  {
    assert Contenders(a, task, deadline) == Contenders(b, task, deadline);
    forall rival
      ensures BestResult(a, task, deadline, rival) == BestResult(b, task, deadline, rival)
    {
      BestResultIgnoresOrder(a, b, task, deadline, rival);
    }
    assert Ahead(a, task, deadline, login) == Ahead(b, task, deadline, login);
  }

  /** Losing some of one's own results never improves one's place. */
  lemma LosingOwnResults(fewer: seq<GroupBenchmark>, more: seq<GroupBenchmark>, task: string, deadline: Time, login: string)
    requires forall row :: row in fewer ==> row in more
    requires forall row :: row in more && row.gitlabLogin != login ==> row in fewer
    requires DistinctPipelines(more)
    ensures NoBetter(PlaceOf(fewer, task, deadline, login), PlaceOf(more, task, deadline, login))
  {
    var after, before := Contenders(fewer, task, deadline), Contenders(more, task, deadline);
    if login in after {
      ContenderHasBest(fewer, task, deadline, login);
      assert after == before;
      forall rival | rival in Ahead(more, task, deadline, login)
        ensures rival in Ahead(fewer, task, deadline, login)
      {
        RivalStaysAhead(fewer, more, task, deadline, login, rival);
      }
      SubsetSize(Ahead(more, task, deadline, login), Ahead(fewer, task, deadline, login));
    }
  }

  lemma RivalStaysAhead(fewer: seq<GroupBenchmark>, more: seq<GroupBenchmark>, task: string, deadline: Time, login: string, rival: string)
    requires forall row :: row in fewer ==> row in more
    requires forall row :: row in more && row.gitlabLogin != login ==> row in fewer
    requires DistinctPipelines(more)
    requires BestResult(fewer, task, deadline, login).Some? && Beats(more, task, deadline, rival, login)
    ensures Beats(fewer, task, deadline, rival, login)
  {
    EntryOrder();
    assert rival != login;
    BestImproves(fewer, Counts(task, deadline, login), more, Counts(task, deadline, login), ResultLess);
    BestImproves(fewer, Counts(task, deadline, rival), more, Counts(task, deadline, rival), ResultLess);
    BestImproves(more, Counts(task, deadline, rival), fewer, Counts(task, deadline, rival), ResultLess);
    BestResultIsRow(fewer, task, deadline, rival);
    BestResultIsRow(more, task, deadline, rival);
  }

  // Losing a rival

  lemma SameBest(fewer: seq<GroupBenchmark>, more: seq<GroupBenchmark>, task: string, deadline: Time, login: string)
    requires DistinctPipelines(more) && forall row: GroupBenchmark :: row.gitlabLogin == login ==> (row in fewer <==> row in more)
    ensures BestResult(fewer, task, deadline, login) == BestResult(more, task, deadline, login)
  {
    EntryOrder();
    BestResultIsRow(fewer, task, deadline, login);
    BestResultIsRow(more, task, deadline, login);
    BestImproves(fewer, Counts(task, deadline, login), more, Counts(task, deadline, login), ResultLess);
    BestImproves(more, Counts(task, deadline, login), fewer, Counts(task, deadline, login), ResultLess);
  }

  /** Only results of the rival are missing, and none of them is left. */
  ghost predicate LosesRival(fewer: seq<GroupBenchmark>, more: seq<GroupBenchmark>, task: string, deadline: Time, rival: string) {
    && DistinctPipelines(more) && DistinctPipelines(fewer)
    && (forall row: GroupBenchmark :: row.gitlabLogin != rival ==> (row in fewer <==> row in more))
    && rival in Contenders(more, task, deadline) && rival !in Contenders(fewer, task, deadline)
  }

  lemma OthersSame(fewer: seq<GroupBenchmark>, more: seq<GroupBenchmark>, task: string, deadline: Time, rival: string, other: string)
    requires LosesRival(fewer, more, task, deadline, rival) && other != rival
    ensures BestResult(fewer, task, deadline, other) == BestResult(more, task, deadline, other)
    ensures other in Contenders(fewer, task, deadline) <==> other in Contenders(more, task, deadline)
  {
    SameBest(fewer, more, task, deadline, other);
    ContenderHasBest(fewer, task, deadline, other);
    ContenderHasBest(more, task, deadline, other);
  }

  lemma FieldShrinks(fewer: seq<GroupBenchmark>, more: seq<GroupBenchmark>, task: string, deadline: Time, rival: string)
    requires LosesRival(fewer, more, task, deadline, rival)
    ensures Contenders(fewer, task, deadline) == Contenders(more, task, deadline) - {rival}
  {
    forall other
      ensures other in Contenders(fewer, task, deadline) <==> other in Contenders(more, task, deadline) - {rival}
    {
      if other != rival {
        OthersSame(fewer, more, task, deadline, rival, other);
      }
    }
  }

  lemma AheadShrinks(fewer: seq<GroupBenchmark>, more: seq<GroupBenchmark>, task: string, deadline: Time, login: string, rival: string)
    requires LosesRival(fewer, more, task, deadline, rival) && login != rival
    ensures Ahead(fewer, task, deadline, login) == Ahead(more, task, deadline, login) - {rival}
  {
    OthersSame(fewer, more, task, deadline, rival, login);
    forall other
      ensures other in Ahead(fewer, task, deadline, login) <==> other in Ahead(more, task, deadline, login) - {rival}
    {
      if other != rival {
        OthersSame(fewer, more, task, deadline, rival, other);
      }
    }
  }

  /** A student whose last result goes leaves the field, and everybody behind moves up by one. */
  lemma LosingRival(fewer: seq<GroupBenchmark>, more: seq<GroupBenchmark>, task: string, deadline: Time, login: string, rival: string)
    requires LosesRival(fewer, more, task, deadline, rival) && login != rival && login in Contenders(more, task, deadline)
    ensures PlaceOf(fewer, task, deadline, login) == Some(Place(
              1 + |Ahead(more, task, deadline, login)| - (if Beats(more, task, deadline, rival, login) then 1 else 0),
              |Contenders(more, task, deadline)| - 1))
  {
    FieldShrinks(fewer, more, task, deadline, rival);
    AheadShrinks(fewer, more, task, deadline, login, rival);
    OneLess(Contenders(more, task, deadline), rival);
    OneLess(Ahead(more, task, deadline, login), rival);
    PlaceCounts(fewer, task, deadline, login);
    assert rival in Ahead(more, task, deadline, login) <==> Beats(more, task, deadline, rival, login);
  }

  lemma OneLess<T>(s: set<T>, x: T)
    ensures |s - {x}| == |s| - if x in s then 1 else 0
  {
    assert x !in s ==> s - {x} == s;
  }

  lemma PlaceCounts(results: seq<GroupBenchmark>, task: string, deadline: Time, login: string)
    ensures login in Contenders(results, task, deadline) ==>
              PlaceOf(results, task, deadline, login) == Some(Place(1 + |Ahead(results, task, deadline, login)|, |Contenders(results, task, deadline)|))
  {
  }

  /** A better result is a lower rank. */
  lemma BeatsIsRank(results: seq<GroupBenchmark>, task: string, deadline: Time, rival: string, login: string)
    requires rival in Contenders(results, task, deadline) && login in Contenders(results, task, deadline)
    ensures Beats(results, task, deadline, rival, login) <==>
              |Ahead(results, task, deadline, rival)| < |Ahead(results, task, deadline, login)|
  {
    EntryOrder();
    ContenderHasBest(results, task, deadline, rival);
    ContenderHasBest(results, task, deadline, login);
    var theirs, own := Ahead(results, task, deadline, rival), Ahead(results, task, deadline, login);
    if Beats(results, task, deadline, rival, login) {
      assert theirs <= own && rival in own && rival !in theirs;
      SubsetSize(theirs, own);
    } else {
      assert own <= theirs;
      SubsetSize(own, theirs);
    }
  }

  /** With distinct pipeline ids no two students share a rank. */
  lemma RanksDiffer(results: seq<GroupBenchmark>, task: string, deadline: Time, login: string, rival: string, own: Place, theirs: Place)
    requires DistinctPipelines(results) && login != rival
    requires PlaceOf(results, task, deadline, login) == Some(own) && PlaceOf(results, task, deadline, rival) == Some(theirs)
    ensures OnOneBoard(own, theirs)
  {
    PlaceValid(results, task, deadline, login);
    PlaceValid(results, task, deadline, rival);
    BeatsIsRank(results, task, deadline, rival, login);
    BeatsIsRank(results, task, deadline, login, rival);
    ContenderHasBest(results, task, deadline, rival);
    ContenderHasBest(results, task, deadline, login);
    BestResultIsRow(results, task, deadline, rival);
    BestResultIsRow(results, task, deadline, login);
  }

  /** The same in terms of places. */
  lemma PlaceMoves(
    fewer: seq<GroupBenchmark>, more: seq<GroupBenchmark>, task: string, deadline: Time, login: string, rival: string, before: Place, theirs: Place)
    requires LosesRival(fewer, more, task, deadline, rival) && login != rival
    requires PlaceOf(more, task, deadline, login) == Some(before) && PlaceOf(more, task, deadline, rival) == Some(theirs)
    ensures PlaceOf(fewer, task, deadline, login) == Some(Without(before, theirs))
  {
    LosingRival(fewer, more, task, deadline, login, rival);
    BeatsIsRank(more, task, deadline, rival, login);
  }
}
