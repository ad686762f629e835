/**
 * A ban that costs somebody else points: three students on one board, of whom the last one is
 * banned, and the whole scores of the second one before and after.
 */
module ModerationWitness {
  import opened Wrappers
  import opened Models
  import opened ScoringPolicies
  import opened TaskScore
  import opened Selection
  import opened Deadlines
  import opened Leaderboard
  import opened LeaderboardBuild
  import opened Representative
  import opened Scorer
  import opened ScorerTheorems
  import opened Database
  import opened Standings
  import Moderation

  const DEADLINE: Time := 100
  const BONUS_TASK := Task("task", 100, false, Some(1.0))
  const GROUP := TaskGroup("Benchmarks", "", DEADLINE, [BONUS_TASK])
  const COURSE: Course :=
    Indexed(
      [GROUP], Scoring([PolicySpec("hard", Linear(1, 0.0))], [ScoringGroup("all", 1.0, 100, "hard")], "all", None, 0.0),
      map["hard" := Linear(1, 0.0)], map["all" := 0])

  function Student(id: int, login: string): User {
    User(id, login, login, login, "group", Some("project-" + login), false)
  }

  function Green(id: int, login: string): Pipeline {
    Pipeline(id, "project-" + login, "task", Success, 10)
  }

  function Joined(id: int, login: string, metric: real): GroupBenchmark {
    GroupBenchmark(login, login, login, "task", id, metric, 10)
  }

  const ANN := "a"
  const BOB := "b"
  const CAT := "c"

  const BOARD :=
    Tables(
      map[ANN := Student(1, ANN), BOB := Student(2, BOB), CAT := Student(3, CAT)],
      map[1 := Green(1, ANN), 2 := Green(2, BOB), 3 := Green(3, CAT)],
      map[], map[], map[],
      map[1 := BenchmarkResult(ANN, "task", 1, 1.0), 2 := BenchmarkResult(BOB, "task", 2, 2.0), 3 := BenchmarkResult(CAT, "task", 3, 3.0)],
      map[])

  const BAN := SubmissionBan(3, "copied", "admin", 50)
  const MORE := [Joined(1, ANN, 1.0), Joined(2, BOB, 2.0), Joined(3, CAT, 3.0)]
  const FEWER := [Joined(1, ANN, 1.0), Joined(2, BOB, 2.0)]

  lemma ListsThree()
    ensures ListsBenchmarks(MORE, BOARD, "group")
  {
    forall row
      ensures row in MORE <==> JoinRow(BOARD, "group", row.pipelineID) == Some(row)
    {
      JoinedRow(row.pipelineID);
    }
  }

  lemma ListsTwo()
    ensures ListsBenchmarks(FEWER, Moderation.Banned(BOARD, BAN), "group")
  {
    forall row
      ensures row in FEWER <==> JoinRow(Moderation.Banned(BOARD, BAN), "group", row.pipelineID) == Some(row)
    {
      JoinedRow(row.pipelineID);
    }
  }

  lemma JoinedRow(id: int)
    ensures JoinRow(BOARD, "group", id)
         == if id == 1 then Some(MORE[0]) else if id == 2 then Some(MORE[1]) else if id == 3 then Some(MORE[2]) else None
    ensures JoinRow(Moderation.Banned(BOARD, BAN), "group", id) == if id == 3 then None else JoinRow(BOARD, "group", id)
  {
  }

  lemma BoardValid()
    ensures BOARD.Valid()
  {
  }

  lemma CourseFair()
    ensures FairCourse(COURSE)
  {
    assert COURSE.GetScoringGroup(GROUP) == Some(0) && COURSE.GetScoringPolicy(GROUP) == Some(Linear(1, 0.0));
  }

  lemma BestOf(results: seq<GroupBenchmark>, at: nat)
    requires at < |results| && results[at].task == "task" && results[at].submittedAt <= DEADLINE
    requires forall i, j :: 0 <= i < j < |results| ==> results[i].gitlabLogin != results[j].gitlabLogin
    ensures BestResult(results, "task", DEADLINE, results[at].gitlabLogin) == Some(results[at])
  {
    assert results[at] in results && Counts("task", DEADLINE, results[at].gitlabLogin)(results[at]);
    BestResultIsRow(results, "task", DEADLINE, results[at].gitlabLogin);
  }

  lemma Places()
    ensures PlaceOf(MORE, "task", DEADLINE, BOB) == Some(Place(2, 3)) && PlaceOf(MORE, "task", DEADLINE, CAT) == Some(Place(3, 3))
    ensures PlaceOf(FEWER, "task", DEADLINE, CAT) == None
  {
    BestOf(MORE, 0);
    BestOf(MORE, 1);
    BestOf(MORE, 2);
    assert Contenders(MORE, "task", DEADLINE) == {ANN, BOB, CAT} by {
      assert MORE[0] in MORE && MORE[1] in MORE && MORE[2] in MORE;
    }
    assert Ahead(MORE, "task", DEADLINE, BOB) == {ANN};
    assert Ahead(MORE, "task", DEADLINE, CAT) == {ANN, BOB};
  }

  lemma PlaceAfter()
    ensures PlaceOf(FEWER, "task", DEADLINE, BOB) == Some(Place(2, 2))
  {
    ListsThree();
    ListsTwo();
    Places();
    Moderation.BanMovesOthers(BOARD, BAN, "group", "task", DEADLINE, BOB, CAT, MORE, FEWER, Place(2, 3), Place(3, 3));
  }

  /** Bob's rows, with his place. */
  function BobsInputs(bans: set<int>, place: Place): Inputs {
    Inputs(Student(2, BOB), None, 50, [Green(2, BOB)], [], [], [], bans, map["task" := place])
  }

  lemma BoardOnly(task: string)
    ensures BoardDeadline(COURSE.assignments, task) == if task == "task" then Some(DEADLINE) else None
  {
    assert [GROUP][..0] == [];
    assert BONUS_TASK in GROUP.tasks;
  }

  lemma BobsRow(t: Tables)
    requires t == BOARD.(bans := t.bans)
    ensures forall row :: row in [Green(2, BOB)] <==> row in t.pipelines.Values && row.project == "project-" + BOB
  {
    assert t.pipelines[2] == Green(2, BOB) && t.pipelines[1].project != t.pipelines[2].project && t.pipelines[3].project != t.pipelines[2].project by {
      assert ("project-" + ANN)[8] == 'a' && ("project-" + BOB)[8] == 'b' && ("project-" + CAT)[8] == 'c';
    }
  }

  lemma Described(t: Tables, results: seq<GroupBenchmark>, place: Place)
    requires t == BOARD.(bans := t.bans) && ListsBenchmarks(results, t, "group") && PlaceOf(results, "task", DEADLINE, BOB) == Some(place)
    ensures Describes(BobsInputs(t.bans.Keys, place), t, COURSE, None, 50, Student(2, BOB))
  {
    var inputs := BobsInputs(t.bans.Keys, place);
    forall task
      ensures CountedPlace(t, COURSE, "group", task, BOB, Lookup(inputs.places, task))
    {
      BoardOnly(task);
    }
    BobsRow(t);
  }

  lemma BobsTask(bans: set<int>, place: Place)
    requires 2 !in bans
    ensures ScoreTaskOf(COURSE, BobsInputs(bans, place), GROUP, BONUS_TASK).score == LeaderboardScore(100, 1.0, place)
  {
    var inputs := BobsInputs(bans, place);
    var keep := UnbannedPipeline(bans, "task");
    assert keep(Green(2, BOB)) && inputs.pipelines[..0] == [] && Best([], keep, PipelineLess) == None;
    assert BestPipeline(inputs.pipelines, bans, "task") == Some(Green(2, BOB));
  }

  lemma BobsGroup(bans: set<int>, place: Place)
    requires 2 !in bans
    ensures ScoreGroup(COURSE, BobsInputs(bans, place), GROUP).score == LeaderboardScore(100, 1.0, place)
  {
    BobsTask(bans, place);
    var tasks := ScoreGroup(COURSE, BobsInputs(bans, place), GROUP).tasks;
    assert |tasks| == 1 && tasks[..0] == [] && SumOfScores(tasks[..0]) == 0;
    assert tasks[0] == ScoreTaskOf(COURSE, BobsInputs(bans, place), GROUP, BONUS_TASK);
  }

  lemma BobsScore(bans: set<int>, place: Place)
    requires 2 !in bans
    ensures UserScoresOf(COURSE, BobsInputs(bans, place)).score == LeaderboardScore(100, 1.0, place)
  {
    BobsGroup(bans, place);
    assert COURSE.assignments == [GROUP] && [GROUP][..0] == [];
    assert ScoreAssignments(COURSE, BobsInputs(bans, place), []).score == 0;
  }

  lemma ScoresAt(t: Tables, results: seq<GroupBenchmark>, place: Place) returns (scores: UserScores)
    requires t == BOARD.(bans := t.bans) && ListsBenchmarks(results, t, "group") && PlaceOf(results, "task", DEADLINE, BOB) == Some(place)
    requires 2 !in t.bans
    ensures AreScoresOf(scores, t, COURSE, None, 50, Student(2, BOB)) && scores.score == LeaderboardScore(100, 1.0, place)
  {
    Described(t, results, place);
    BobsScore(t.bans.Keys, place);
    scores := UserScoresOf(COURSE, BobsInputs(t.bans.Keys, place));
  }

  lemma SecondPlaces()
    ensures LeaderboardScore(100, 1.0, Place(2, 3)) == 150 && LeaderboardScore(100, 1.0, Place(2, 2)) == 100
  {
    assert Fraction(Place(2, 3)) == 0.5;
    assert Fraction(Place(2, 2)) == 0.0;
  }

  /** The second of three has half of the bonus, and none of it once the third is banned off the board. */
  lemma BanCanLowerRival() returns (before: UserScores, after: UserScores)
    ensures BOARD.Valid() && FairCourse(COURSE)
    ensures AreScoresOf(before, BOARD, COURSE, None, 50, Student(2, BOB)) && before.score == 150
    ensures AreScoresOf(after, Moderation.Banned(BOARD, BAN), COURSE, None, 50, Student(2, BOB)) && after.score == 100
  {
    BoardValid();
    CourseFair();
    ListsThree();
    ListsTwo();
    Places();
    PlaceAfter();
    SecondPlaces();
    before := ScoresAt(BOARD, MORE, Place(2, 3));
    after := ScoresAt(Moderation.Banned(BOARD, BAN), FEWER, Place(2, 2));
  }
}
