/**
 * Two ways to the same scores: the home page asks the database for one student's rows,
 * the standings fetch all rows once and hand out cached slices
 * (CalcUserScores and CalcScoreboardWithFilter of internal/scorer/scorer.go).
 */
module Standings {
  import opened Wrappers
  import opened Models
  import opened Selection
  import opened Strings
  import opened TaskScore
  import opened Deadlines
  import opened Leaderboard
  import opened LeaderboardBuild
  import opened Representative
  import opened Scorer
  import opened ScorerTheorems
  import opened Database

  /** The place the benchmark table gives a student, counted over any listing of it. */
  ghost predicate CountedPlace(t: Tables, course: Course, group: string, task: string, login: string, place: Option<Place>) {
    var deadline := BoardDeadline(course.assignments, task);
    if deadline.None? then place.None?
    else exists rows :: ListsBenchmarks(rows, t, group) && place == PlaceOf(rows, task, deadline.value, login)
  }

  /** The inputs hold exactly what the tables say about the student, listed in some order. */
  ghost predicate Describes(inputs: Inputs, t: Tables, course: Course, workflow: Option<MergeRequestsConfig>, now: Time, user: User) {
    && inputs.user == user && inputs.workflow == workflow && inputs.now == now
    && inputs.bans == t.bans.Keys
    && (forall row :: row in inputs.pipelines <==> row in t.pipelines.Values && row.project == user.ProjectName())
    && (forall row :: row in inputs.flags <==> row in t.flags.Values && row.gitlabLogin == Some(user.gitlabLogin))
    && (if workflow.Some?
        then
          && (forall row :: row in inputs.requests <==> row in t.requests.Values && row.project == user.ProjectName())
          && StrictlySorted(inputs.requests, IdLess)
        else inputs.requests == [])
    && (forall task ::
          var key := OverrideKey(user.gitlabLogin, task);
          OverrideOf(inputs.overrides, user.gitlabLogin, task) == if key in t.overrides then Some(t.overrides[key]) else None)
    && (forall task :: CountedPlace(t, course, user.groupName, task, user.gitlabLogin, Lookup(inputs.places, task)))
  }

  /** What the tables say a student's scores are. */
  ghost predicate AreScoresOf(scores: UserScores, t: Tables, course: Course, workflow: Option<MergeRequestsConfig>, now: Time, user: User) {
    exists inputs :: Describes(inputs, t, course, workflow, now, user) && scores == UserScoresOf(course, inputs)
  }

  lemma CountedPlaceUnique(t: Tables, course: Course, group: string, task: string, login: string, a: Option<Place>, b: Option<Place>)
    ensures CountedPlace(t, course, group, task, login, a) && CountedPlace(t, course, group, task, login, b) ==> a == b && ValidPlace(a)
  {
    var deadline := BoardDeadline(course.assignments, task);
    if deadline.Some? && CountedPlace(t, course, group, task, login, a) && CountedPlace(t, course, group, task, login, b) {
      var x :| ListsBenchmarks(x, t, group) && a == PlaceOf(x, task, deadline.value, login);
      var y :| ListsBenchmarks(y, t, group) && b == PlaceOf(y, task, deadline.value, login);
      BenchmarksDistinct(x, t, group);
      PlaceIgnoresOrder(x, y, task, deadline.value, login);
      PlaceValid(x, task, deadline.value, login);
    }
  }

  lemma IdOrder()
    ensures StrictWeakOrder(IdLess)
  {
  }

  lemma SamePlaces(a: map<string, Place>, b: map<string, Place>)
    requires forall task :: Lookup(a, task) == Lookup(b, task)
    ensures a == b
  {
    assert forall task :: (task in a <==> Lookup(a, task).Some?) && (task in b <==> Lookup(b, task).Some?);
    assert forall task :: task in a ==> Lookup(a, task) == Some(a[task]) && Lookup(b, task) == Some(b[task]);
  }

  /** Any two readings of the same tables at the same time give the same scores. */
  lemma ScoresDetermined(a: UserScores, b: UserScores, t: Tables, course: Course, workflow: Option<MergeRequestsConfig>, now: Time, user: User)
    requires AreScoresOf(a, t, course, workflow, now, user) && AreScoresOf(b, t, course, workflow, now, user)
    ensures a == b
  {
    var x :| Describes(x, t, course, workflow, now, user) && a == UserScoresOf(course, x);
    var y :| Describes(y, t, course, workflow, now, user) && b == UserScoresOf(course, y);
    forall task
      ensures Lookup(x.places, task) == Lookup(y.places, task)
    {
      CountedPlaceUnique(t, course, user.groupName, task, user.gitlabLogin, Lookup(x.places, task), Lookup(y.places, task));
    }
    SamePlaces(x.places, y.places);
    if workflow.Some? {
      IdOrder();
      assert SameRows(x.requests, y.requests);
      StrictlySortedUnique(x.requests, y.requests, IdLess);
    }
    ScoresIgnoreOrder(course, x, y, course.assignments);
  }

  // Leaderboards of a group

  ghost function PlacesFor(boards: map<string, TaskLeaderboard>, login: string): (places: map<string, Place>)
    reads boards.Values
    ensures PlacesOn(boards, login, places)
  {
    map task | task in boards && boards[task].Placing(login).Some? :: boards[task].Placing(login).value
  }

  function PlacingOn(boards: map<string, TaskLeaderboard>, task: string, login: string): Option<Place>
    reads boards.Values
  {
    if task in boards then boards[task].Placing(login) else None
  }

  ghost predicate BoardsOf(boards: map<string, TaskLeaderboard>, t: Tables, course: Course, group: string)
    reads boards.Values
  {
    forall task, login :: CountedPlace(t, course, group, task, login, PlacingOn(boards, task, login))
  }

  method CalcLeaderboards(db: DataBase, course: Course, group: string) returns (boards: map<string, TaskLeaderboard>)
    requires db.Valid()
    ensures fresh(boards.Values) && BoardsOf(boards, db.View(), course, group)
  {
    boards := NewLeaderboards(course.assignments);
    if boards == map[] {
      forall task, login
        ensures CountedPlace(db.View(), course, group, task, login, PlacingOn(boards, task, login))
      {
        assert task !in boards;
      }
      return;
    }
    var results := db.ListGroupBenchmarks(group);
    FillLeaderboards(boards, results);
    forall task, login
      ensures CountedPlace(db.View(), course, group, task, login, PlacingOn(boards, task, login))
    {
      if task in boards {
        BenchmarksDistinct(results, db.View(), group);
        PlacingIsCounted(boards[task], results, task, login);
      }
    }
  }

  // One student, straight from the database

  datatype ScoreError = NoDeadlines

  /** workflow is the scorer's merge request configuration, courses the deadlines by group. */
  method CalcUserScores(db: DataBase, courses: map<string, Course>, workflow: Option<MergeRequestsConfig>, now: Time, user: User)
    returns (result: Result<UserScores, ScoreError>)
    requires db.Valid()
    ensures result.Err? <==> user.groupName !in courses
    ensures result.Ok? ==> AreScoresOf(result.value, db.View(), courses[user.groupName], workflow, now, user)
  {
    if user.groupName !in courses {
      return Err(NoDeadlines);
    }
    var course := courses[user.groupName];
    var overrides := db.ListUserOverrides(user.gitlabLogin);
    var bans := LoadSubmissionBans(db);
    var boards := CalcLeaderboards(db, course, user.groupName);
    var pipelines := db.ListProjectPipelines(user.ProjectName());
    var flags := db.ListUserFlags(user.gitlabLogin);
    var requests := [];
    if workflow.Some? {
      requests := db.ListProjectMergeRequests(user.ProjectName());
    }
    ghost var places := PlacesFor(boards, user.gitlabLogin);
    ghost var inputs := Inputs(user, workflow, now, pipelines, flags, requests, overrides, bans, places);
    OverridesFound(db.View(), overrides, user.gitlabLogin);
    BoardPlaces(boards, db.View(), course, user, places);
    assert Describes(inputs, db.View(), course, workflow, now, user);
    var scores := CalcUserScoresImpl(course, user, workflow, now, pipelines, flags, requests, overrides, boards, bans, places);
    result := Ok(scores);
  }

  lemma BoardPlaces(boards: map<string, TaskLeaderboard>, t: Tables, course: Course, user: User, places: map<string, Place>)
    requires BoardsOf(boards, t, course, user.groupName) && PlacesOn(boards, user.gitlabLogin, places)
    ensures forall task :: CountedPlace(t, course, user.groupName, task, user.gitlabLogin, Lookup(places, task))
  {
    var login := user.gitlabLogin;
    forall task
      ensures CountedPlace(t, course, user.groupName, task, login, Lookup(places, task))
    {
      assert CountedPlace(t, course, user.groupName, task, login, PlacingOn(boards, task, login));
    }
  }

  method LoadSubmissionBans(db: DataBase) returns (bans: set<int>)
    requires db.Valid()
    ensures bans == db.bans.Keys
  {
    var rows := db.ListSubmissionBans();
    bans := {};
    for i := 0 to |rows|
      invariant forall id :: id in bans <==> exists row :: row in rows[..i] && row.pipelineID == id
    {
      assert rows[..i + 1] == rows[..i] + [rows[i]];
      bans := bans + {rows[i].pipelineID};
    }
    assert rows[..|rows|] == rows;
    forall id
      ensures id in bans <==> id in db.bans
    {
      if id in db.bans {
        assert db.bans[id] in db.bans.Values && db.bans[id] in rows;
      }
      if id in bans {
        var row :| row in rows && row.pipelineID == id;
        var key := KeyOf(db.bans, row);
      }
    }
  }

  /** A listing with every override of the student and only rows of the table finds the override. */
  lemma {:induction false} OverridesFound(t: Tables, rows: seq<OverriddenScore>, login: string)
    requires t.Valid()
    requires forall row :: row in rows ==> row in t.overrides.Values
    requires forall row :: row in t.overrides.Values && row.gitlabLogin == login ==> row in rows
    ensures forall task ::
      var key := OverrideKey(login, task);
      OverrideOf(rows, login, task) == if key in t.overrides then Some(t.overrides[key]) else None
  {
    forall task
      ensures var key := OverrideKey(login, task);
              OverrideOf(rows, login, task) == if key in t.overrides then Some(t.overrides[key]) else None
    {
      OverrideIsRow(rows, login, task);
      var key := OverrideKey(login, task);
      if key in t.overrides {
        assert t.overrides[key] in t.overrides.Values && t.overrides[key] in rows;
      }
      if OverrideOf(rows, login, task).Some? {
        var row := OverrideOf(rows, login, task).value;
        var k := KeyOf(t.overrides, row);
        assert k == key;
      }
    }
  }

  lemma {:induction false} OverrideIsRow(rows: seq<OverriddenScore>, login: string, task: string)
    ensures var found := OverrideOf(rows, login, task);
            && (found.Some? ==> found.value in rows && found.value.gitlabLogin == login && found.value.task == task)
            && (found.None? ==> forall row :: row in rows ==> row.gitlabLogin != login || row.task != task)
    decreases |rows|
  {
    if rows != [] {
      var front, last := rows[..|rows| - 1], rows[|rows| - 1];
      OverrideIsRow(front, login, task);
      assert rows == front + [last];
    }
  }

  // A whole group, through cached rows

  function HasKey<T>(key: T -> string, value: string): T -> bool {
    (row: T) => key(row) == value
  }

  function Slice<T>(cache: map<string, seq<T>>, key: string): seq<T> {
    if key in cache then cache[key] else []
  }

  /** makeCachedPipelinesProvider and its two siblings: all rows split by key, order kept. */
  method MakeCachedProvider<T(!new)>(rows: seq<T>, key: T -> string) returns (cache: map<string, seq<T>>)
    ensures forall value :: Slice(cache, value) == Filter(rows, HasKey(key, value))
  {
    cache := map[];
    for i := 0 to |rows|
      invariant forall value :: Slice(cache, value) == Filter(rows[..i], HasKey(key, value))
    {
      assert rows[..i + 1][..i] == rows[..i];
      var prev := Slice(cache, key(rows[i]));
      cache := cache[key(rows[i]) := prev + [rows[i]]];
    }
    assert rows[..|rows|] == rows;
  }

  /** Best mark first, then by name. */
  predicate StandsBefore(a: UserScores, b: UserScores) {
    if a.finalMark != b.finalMark then a.finalMark > b.finalMark
    else StringLess(a.user.FullName(), b.user.FullName())
  }

  lemma StandingsOrder()
    ensures StrictWeakOrder(StandsBefore)
  {
    forall a, b
      ensures StandsBefore(a, b) ==> !StandsBefore(b, a)
    {
      StringOrder(a.user.FullName(), b.user.FullName(), []);
    }
    forall a, b, c
      ensures StandsBefore(a, c) ==> StandsBefore(a, b) || StandsBefore(b, c)
    {
      StringOrder(a.user.FullName(), b.user.FullName(), c.user.FullName());
    }
  }

  /** Higher marks first; of equal marks the name that comes first by its first different character. */
  ghost predicate InOrder(rows: seq<UserScores>) {
    forall i, j :: 0 <= i < j < |rows| ==>
      && rows[j].finalMark <= rows[i].finalMark
      && (rows[j].finalMark == rows[i].finalMark ==>
            !exists k :: FirstAt(
              rows[j].user.firstName + " " + rows[j].user.lastName, rows[i].user.firstName + " " + rows[i].user.lastName, k))
  }

  lemma SortedInOrder(rows: seq<UserScores>)
    requires Sorted(rows, StandsBefore)
    ensures InOrder(rows)
  {
    forall i, j | 0 <= i < j < |rows|
      ensures !StandsBefore(rows[j], rows[i])
      ensures StringLess(rows[j].user.FullName(), rows[i].user.FullName())
              <==> exists k :: FirstAt(rows[j].user.FullName(), rows[i].user.FullName(), k)
    {
      FirstDifference(rows[j].user.FullName(), rows[i].user.FullName());
    }
  }

  /** The rows of all students cached once, by project or login. */
  datatype Cache = Cache(
    pipelines: map<string, seq<Pipeline>>,
    flags: map<string, seq<Flag>>,
    requests: map<string, seq<MergeRequest>>,
    overrides: seq<OverriddenScore>,
    bans: set<int>)
  {
    function InputsFor(workflow: Option<MergeRequestsConfig>, now: Time, user: User, places: map<string, Place>): Inputs {
      Inputs(user, workflow, now,
        Slice(pipelines, user.ProjectName()), Slice(flags, user.gitlabLogin),
        if workflow.Some? then Slice(requests, user.ProjectName()) else [],
        overrides, bans, places)
    }

    ghost predicate Of(t: Tables, workflow: Option<MergeRequestsConfig>) {
      && bans == t.bans.Keys
      && (forall project, row :: row in Slice(pipelines, project) <==> row in t.pipelines.Values && row.project == project)
      && (forall login, row :: row in Slice(flags, login) <==> row in t.flags.Values && row.gitlabLogin == Some(login))
      && (workflow.Some? ==> forall project ::
            && (forall row :: row in Slice(requests, project) <==> row in t.requests.Values && row.project == project)
            && StrictlySorted(Slice(requests, project), IdLess))
      && (forall row :: row in overrides <==> row in t.overrides.Values)
    }
  }

  method MakeCache(db: DataBase, workflow: Option<MergeRequestsConfig>) returns (cache: Cache)
    requires db.Valid()
    ensures cache.Of(db.View(), workflow)
  {
    var allPipelines := db.ListAllPipelines();
    var pipelines := MakeCachedProvider(allPipelines, (row: Pipeline) => row.project);
    var allFlags := db.ListSubmittedFlags();
    var flags := MakeCachedProvider(allFlags, (row: Flag) => if row.gitlabLogin.Some? then row.gitlabLogin.value else "");
    var allRequests, requests := [], map[];
    if workflow.Some? {
      allRequests := db.ListAllMergeRequests();
      requests := MakeCachedProvider(allRequests, (row: MergeRequest) => row.project);
      forall project
        ensures StrictlySorted(Slice(requests, project), IdLess)
      {
        FilterStrictlySorted(allRequests, HasKey((row: MergeRequest) => row.project, project), IdLess);
      }
    }
    var overrides := db.ListOverrides();
    var bans := LoadSubmissionBans(db);
    cache := Cache(pipelines, flags, requests, overrides, bans);
  }

  lemma CacheDescribes(cache: Cache, t: Tables, course: Course, workflow: Option<MergeRequestsConfig>, now: Time, user: User, places: map<string, Place>)
    requires t.Valid() && cache.Of(t, workflow)
    requires forall task :: CountedPlace(t, course, user.groupName, task, user.gitlabLogin, Lookup(places, task))
    ensures Describes(cache.InputsFor(workflow, now, user, places), t, course, workflow, now, user)
  {
    OverridesFound(t, cache.overrides, user.gitlabLogin);
  }

  function UserOf(row: UserScores): User {
    row.user
  }

  ghost predicate HasRow(scores: seq<UserScores>, user: User) {
    exists row :: row in scores && row.user == user
  }

  /** One row per listed student that passes the filter. */
  ghost predicate Cover(scores: seq<UserScores>, users: seq<User>, filter: User -> bool) {
    forall user :: HasRow(scores, user) <==> user in users && filter(user)
  }

  lemma CoverStep(scores: seq<UserScores>, users: seq<User>, filter: User -> bool, row: UserScores, more: seq<UserScores>)
    requires Cover(scores, users, filter) && filter(row.user)
    requires forall other :: other in more <==> other in scores || other == row
    ensures Cover(more, users + [row.user], filter)
  {
    forall user
      ensures HasRow(more, user) <==> user in users + [row.user] && filter(user)
    {
      assert HasRow(scores, user) ==> HasRow(more, user);
      assert row in more && HasRow(more, row.user);
      assert HasRow(more, user) && user != row.user ==> HasRow(scores, user);
    }
  }

  method CalcScoreboardWithFilter(
    db: DataBase, courses: map<string, Course>, workflow: Option<MergeRequestsConfig>, now: Time, group: string, filter: User -> bool)
    returns (result: Result<seq<UserScores>, ScoreError>)
    requires db.Valid()
    ensures result.Err? <==> group !in courses
    // one row per student of the group that passes the filter
    ensures result.Ok? ==>
      && (forall user :: HasRow(result.value, user) <==> user in db.users.Values && user.groupName == group && user.project.Some? && filter(user))
      && Distinct(result.value, UserOf)
      && InOrder(result.value)
    // each row is what the tables say, as for the single student above
    ensures result.Ok? ==> forall row :: row in result.value ==> AreScoresOf(row, db.View(), courses[group], workflow, now, row.user)
  {
    if group !in courses {
      return Err(NoDeadlines);
    }
    var course := courses[group];
    var users := db.ListGroupUsers(group);
    var cache := MakeCache(db, workflow);
    var boards := CalcLeaderboards(db, course, group);
    var scores := ScoreUsers(db, course, workflow, now, group, users, filter, cache, boards);
    SortedInOrder(scores);
    result := Ok(scores);
  }

  /** The loop over the listed students, and the sort. */
  method ScoreUsers(
    db: DataBase, course: Course, workflow: Option<MergeRequestsConfig>, now: Time, group: string, users: seq<User>, filter: User -> bool,
    cache: Cache, boards: map<string, TaskLeaderboard>)
    returns (scores: seq<UserScores>)
    requires db.Valid() && cache.Of(db.View(), workflow) && BoardsOf(boards, db.View(), course, group)
    requires Distinct(users, Itself) && forall user :: user in users ==> user.groupName == group
    ensures Cover(scores, users, filter) && Distinct(scores, UserOf) && Sorted(scores, StandsBefore)
    ensures forall row :: row in scores ==> AreScoresOf(row, db.View(), course, workflow, now, row.user)
  {
    scores := [];
    StandingsOrder();
    for i := 0 to |users|
      invariant Sorted(scores, StandsBefore) && Distinct(scores, UserOf) && Cover(scores, users[..i], filter)
      invariant forall row :: row in scores ==> AreScoresOf(row, db.View(), course, workflow, now, row.user)
    {
      var user := users[i];
      assert users[..i + 1] == users[..i] + [user];
      if filter(user) {
        var row := CalcCachedScores(db, course, workflow, now, user, cache, boards);
        assert user !in users[..i] by {
          assert forall k :: 0 <= k < i ==> Itself(users[k]) != Itself(users[i]);
        }
        assert forall other :: other in scores ==> HasRow(scores, other.user);
        ghost var before := scores;
        scores := InsertNew(scores, row, StandsBefore, UserOf);
        CoverStep(before, users[..i], filter, row, scores);
      }
    }
    assert users[..|users|] == users;
  }

  method CalcCachedScores(
    db: DataBase, course: Course, workflow: Option<MergeRequestsConfig>, now: Time, user: User, cache: Cache, boards: map<string, TaskLeaderboard>)
    returns (row: UserScores)
    requires db.Valid() && cache.Of(db.View(), workflow) && BoardsOf(boards, db.View(), course, user.groupName)
    ensures row.user == user && AreScoresOf(row, db.View(), course, workflow, now, user)
  {
    ghost var places := PlacesFor(boards, user.gitlabLogin);
    BoardPlaces(boards, db.View(), course, user, places);
    CacheDescribes(cache, db.View(), course, workflow, now, user, places);
    var requests := if workflow.Some? then Slice(cache.requests, user.ProjectName()) else [];
    row := CalcUserScoresImpl(course, user, workflow, now,
      Slice(cache.pipelines, user.ProjectName()), Slice(cache.flags, user.gitlabLogin), requests,
      cache.overrides, boards, cache.bans, places);
  }

  /** The two paths side by side: every row of the standings is the student's home page. */
  method CachedEqualsDirect(
    db: DataBase, courses: map<string, Course>, workflow: Option<MergeRequestsConfig>, now: Time, group: string, filter: User -> bool)
    returns (standings: Result<seq<UserScores>, ScoreError>, pages: seq<UserScores>)
    requires db.Valid()
    ensures standings.Ok? ==> pages == standings.value
  {
    standings := CalcScoreboardWithFilter(db, courses, workflow, now, group, filter);
    pages := [];
    if standings.Ok? {
      var rows := standings.value;
      for i := 0 to |rows|
        invariant pages == rows[..i]
      {
        assert rows[i] in rows && HasRow(rows, rows[i].user);
        var page := CalcUserScores(db, courses, workflow, now, rows[i].user);
        ScoresDetermined(page.value, rows[i], db.View(), courses[group], workflow, now, rows[i].user);
        pages := pages + [page.value];
      }
    }
  }
}
