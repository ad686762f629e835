/** What banning a submission does to the student it belongs to, end to end. */
module Moderation {
  import opened Wrappers
  import opened Models
  import opened TaskScore
  import opened Deadlines
  import opened Leaderboard
  import opened LeaderboardBuild
  import opened Representative
  import opened Scorer
  import opened ScorerTheorems
  import opened Database
  import opened Standings

  function Banned(t: Tables, ban: SubmissionBan): Tables {
    t.(bans := t.bans[ban.pipelineID := ban])
  }

  /** The benchmark row of the pipeline, if any, names the student. */
  ghost predicate OwnBenchmark(t: Tables, pipelineID: int, login: string) {
    pipelineID in t.benchmarks ==> t.benchmarks[pipelineID].gitlabLogin == login
  }

  /** The ban never improves a student's own place. */
  lemma BanPlaces(
    t: Tables, ban: SubmissionBan, group: string, task: string, deadline: Time, login: string, more: seq<GroupBenchmark>, fewer: seq<GroupBenchmark>)
    requires OwnBenchmark(t, ban.pipelineID, login) && ListsBenchmarks(more, t, group) && ListsBenchmarks(fewer, Banned(t, ban), group)
    ensures NoBetter(PlaceOf(fewer, task, deadline, login), PlaceOf(more, task, deadline, login))
    ensures ValidPlace(PlaceOf(fewer, task, deadline, login)) && ValidPlace(PlaceOf(more, task, deadline, login))
  {
    BenchmarksDistinct(more, t, group);
    BanDropsRow(t, ban, group, more, fewer);
    LosingOwnResults(fewer, more, task, deadline, login);
    PlaceValid(fewer, task, deadline, login);
    PlaceValid(more, task, deadline, login);
  }

  lemma BanDropsRow(t: Tables, ban: SubmissionBan, group: string, more: seq<GroupBenchmark>, fewer: seq<GroupBenchmark>)
    requires ListsBenchmarks(more, t, group) && ListsBenchmarks(fewer, Banned(t, ban), group)
    ensures forall row :: row in fewer <==> row in more && row.pipelineID != ban.pipelineID
    ensures forall row :: row in more && row.pipelineID == ban.pipelineID ==>
              ban.pipelineID in t.benchmarks && row.gitlabLogin == t.benchmarks[ban.pipelineID].gitlabLogin
  {
    forall row
      ensures row in fewer <==> row in more && row.pipelineID != ban.pipelineID
    {
      assert row in fewer <==> JoinRow(Banned(t, ban), group, row.pipelineID) == Some(row);
      assert row in more <==> JoinRow(t, group, row.pipelineID) == Some(row);
    }
  }

  /**
   * Banning a pipeline never raises a task score, a total or the final mark of the student
   * whose benchmark it may carry: in both workflows, through the choice of the representative,
   * decay, final deadline, retake floor, place and bonus.
   */
  lemma BanNeverRaises(
    t: Tables, ban: SubmissionBan, course: Course, workflow: Option<MergeRequestsConfig>, now: Time, user: User,
    before: UserScores, after: UserScores)
    requires FairCourse(course) && OwnBenchmark(t, ban.pipelineID, user.gitlabLogin)
    requires AreScoresOf(before, t, course, workflow, now, user)
    requires AreScoresOf(after, Banned(t, ban), course, workflow, now, user)
    ensures NoHigher(after, before)
  {
    var x :| Describes(x, t, course, workflow, now, user) && before == UserScoresOf(course, x);
    var z :| Describes(z, Banned(t, ban), course, workflow, now, user) && after == UserScoresOf(course, z);
    var y := x.(bans := Banned(t, ban).bans.Keys, places := z.places);
    BanDescribes(t, ban, course, workflow, now, user, x, z);
    SameAfterBan(t, ban, course, workflow, now, user, after, y);
    BanFewerRows(t, ban, course, workflow, now, user, x, y);
    MoreRowsNeverLower(course, y, x);
  }

  lemma SameAfterBan(
    t: Tables, ban: SubmissionBan, course: Course, workflow: Option<MergeRequestsConfig>, now: Time, user: User, after: UserScores, y: Inputs)
    requires AreScoresOf(after, Banned(t, ban), course, workflow, now, user) && Describes(y, Banned(t, ban), course, workflow, now, user)
    ensures after == UserScoresOf(course, y)
  {
    ScoresDetermined(after, UserScoresOf(course, y), Banned(t, ban), course, workflow, now, user);
  }

  /** The rows from before with the ban and the places from after describe the banned tables. */
  lemma BanDescribes(
    t: Tables, ban: SubmissionBan, course: Course, workflow: Option<MergeRequestsConfig>, now: Time, user: User, x: Inputs, z: Inputs)
    requires Describes(x, t, course, workflow, now, user) && Describes(z, Banned(t, ban), course, workflow, now, user)
    ensures Describes(x.(bans := Banned(t, ban).bans.Keys, places := z.places), Banned(t, ban), course, workflow, now, user)
  {
  }

  lemma BanFewerRows(
    t: Tables, ban: SubmissionBan, course: Course, workflow: Option<MergeRequestsConfig>, now: Time, user: User, x: Inputs, y: Inputs)
    requires OwnBenchmark(t, ban.pipelineID, user.gitlabLogin)
    requires Describes(x, t, course, workflow, now, user) && Describes(y, Banned(t, ban), course, workflow, now, user)
    requires y == x.(bans := y.bans, places := y.places)
    ensures FewerRows(y, x) && ValidPlaces(x) && ValidPlaces(y)
  {
    forall task
      ensures NoBetter(Lookup(y.places, task), Lookup(x.places, task))
      ensures ValidPlace(Lookup(y.places, task)) && ValidPlace(Lookup(x.places, task))
    {
      var deadline, login := BoardDeadline(course.assignments, task), user.gitlabLogin;
      assert CountedPlace(t, course, user.groupName, task, login, Lookup(x.places, task));
      assert CountedPlace(Banned(t, ban), course, user.groupName, task, login, Lookup(y.places, task));
      if deadline.Some? {
        var more :| ListsBenchmarks(more, t, user.groupName) && Lookup(x.places, task) == PlaceOf(more, task, deadline.value, login);
        var fewer :| ListsBenchmarks(fewer, Banned(t, ban), user.groupName) && Lookup(y.places, task) == PlaceOf(fewer, task, deadline.value, login);
        BanPlaces(t, ban, user.groupName, task, deadline.value, login, more, fewer);
      }
    }
  }

  /** Lifting the ban gives the scores back exactly. */
  lemma UnbanRestores(
    t: Tables, ban: SubmissionBan, course: Course, workflow: Option<MergeRequestsConfig>, now: Time, user: User,
    before: UserScores, restored: UserScores)
    requires ban.pipelineID !in t.bans
    requires AreScoresOf(before, t, course, workflow, now, user)
    requires var banned := Banned(t, ban);
             AreScoresOf(restored, banned.(bans := banned.bans - {ban.pipelineID}), course, workflow, now, user)
    ensures before == restored
  {
    BanAndUnban(t, ban.pipelineID, ban);
    ScoresDetermined(before, restored, t, course, workflow, now, user);
  }

  /**
   * What a ban does to another student, when it takes the rival off the board: the field is
   * one smaller, and the student moves up exactly if the rival was ahead. more and fewer are
   * any listings of the join before and after.
   */
  lemma BanMovesOthers(
    t: Tables, ban: SubmissionBan, group: string, task: string, deadline: Time, login: string, rival: string,
    more: seq<GroupBenchmark>, fewer: seq<GroupBenchmark>, before: Place, theirs: Place)
    requires ListsBenchmarks(more, t, group) && ListsBenchmarks(fewer, Banned(t, ban), group)
    requires login != rival && OwnBenchmark(t, ban.pipelineID, rival)
    requires PlaceOf(more, task, deadline, login) == Some(before)
    requires PlaceOf(more, task, deadline, rival) == Some(theirs) && PlaceOf(fewer, task, deadline, rival) == None
    ensures PlaceOf(fewer, task, deadline, login) == Some(Without(before, theirs))
  {
    BenchmarksDistinct(more, t, group);
    BenchmarksDistinct(fewer, Banned(t, ban), group);
    BanDropsRow(t, ban, group, more, fewer);
    PlaceMoves(fewer, more, task, deadline, login, rival, before, theirs);
  }

  /**
   * So BanNeverRaises is about the banned student only: another student loses a part of the
   * bonus exactly if the banned one was behind and the student not first.
   */
  lemma BanLowersOthers(
    t: Tables, ban: SubmissionBan, group: string, task: string, deadline: Time, login: string, rival: string,
    more: seq<GroupBenchmark>, fewer: seq<GroupBenchmark>, before: Place, theirs: Place, base: nat, bonus: real)
    requires ListsBenchmarks(more, t, group) && ListsBenchmarks(fewer, Banned(t, ban), group)
    requires login != rival && OwnBenchmark(t, ban.pipelineID, rival) && 0.0 <= bonus
    requires PlaceOf(more, task, deadline, login) == Some(before)
    requires PlaceOf(more, task, deadline, rival) == Some(theirs) && PlaceOf(fewer, task, deadline, rival) == None
    ensures PlaceOf(fewer, task, deadline, login).Some?
    ensures var after := PlaceOf(fewer, task, deadline, login).value;
            && (Factor(bonus, after) < Factor(bonus, before) <==> 0.0 < bonus && 1 < before.rank < theirs.rank)
            && (LeaderboardScore(base, bonus, after) < LeaderboardScore(base, bonus, before) ==> 1 < before.rank < theirs.rank)
  {
    BanMovesOthers(t, ban, group, task, deadline, login, rival, more, fewer, before, theirs);
    BenchmarksDistinct(more, t, group);
    RanksDiffer(more, task, deadline, login, rival, before, theirs);
    FactorWithout(bonus, before, theirs);
    ScoreWithout(base, bonus, before, theirs);
  }
}
