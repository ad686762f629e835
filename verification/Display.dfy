/**
 * Newest group first on the page: ReverseSlice of pkg/generic/slices.go, copyDeadlines of
 * internal/scorer/scorer.go, reverseScores and reverseScoreboardGroups of internal/web/render.go.
 */
module Display {
  import opened Wrappers
  import opened Models
  import opened Deadlines
  import opened Scorer
  import opened FinalMark
  import opened Database
  import Scoreboard = Standings

  function Backwards<T>(s: seq<T>): (r: seq<T>)
    ensures |r| == |s| && forall i :: 0 <= i < |s| ==> r[i] == s[|s| - 1 - i]
  {
    if s == [] then [] else [s[|s| - 1]] + Backwards(s[..|s| - 1])
  }

  lemma BackwardsTwice<T>(s: seq<T>)
    ensures Backwards(Backwards(s)) == s
  {
  }

  method ReverseSlice<T>(a: array<T>)
    modifies a
    ensures a[..] == Backwards(old(a[..]))
  {
    var i, j := 0, a.Length - 1;
    while i < j
      invariant 0 <= i <= j + 1 && i + j == a.Length - 1
      invariant forall k :: i <= k <= j ==> a[k] == old(a[k])
      invariant forall k :: 0 <= k < a.Length && !(i <= k <= j) ==> a[k] == old(a[a.Length - 1 - k])
    {
      a[i], a[j] := a[j], a[i];
      i, j := i + 1, j - 1;
    }
  }

  /** A fresh array with the same groups. */
  method CopyDeadlines(src: array<TaskGroup>) returns (dst: array<TaskGroup>)
    ensures fresh(dst) && dst[..] == src[..]
  {
    dst := new TaskGroup[src.Length](i requires 0 <= i < src.Length reads src => src[i]);
  }

  // Headers and rows

  /** The column group of a student is about the assignment in the header, task by task. */
  predicate SameColumn(header: TaskGroup, group: ScoredTaskGroup) {
    && group.title == header.title && group.deadline == header.deadline
    && |group.tasks| == |header.tasks|
    && forall j :: 0 <= j < |header.tasks| ==> group.tasks[j].task == header.tasks[j].task
  }

  predicate Aligned(headers: seq<TaskGroup>, groups: seq<ScoredTaskGroup>) {
    |groups| == |headers| && forall i :: 0 <= i < |headers| ==> SameColumn(headers[i], groups[i])
  }

  lemma ScoresAligned(course: Course, inputs: Inputs)
    ensures Aligned(course.assignments, UserScoresOf(course, inputs).groups)
  {
    ScoresGroups(course, inputs, course.assignments);
    var groups := UserScoresOf(course, inputs).groups;
    forall i | 0 <= i < |groups|
      ensures SameColumn(course.assignments[i], groups[i])
    {
      assert groups[i] == ScoreGroup(course, inputs, course.assignments[i]);
    }
  }

  lemma BackwardsAligned(headers: seq<TaskGroup>, groups: seq<ScoredTaskGroup>)
    requires Aligned(headers, groups)
    ensures Aligned(Backwards(headers), Backwards(groups))
  {
  }

  // The page

  class StudentRow {
    const groups: array<ScoredTaskGroup>
    const user: User

    constructor (scores: UserScores)
      ensures fresh(groups) && groups[..] == scores.groups && user == scores.user
    {
      groups := new ScoredTaskGroup[|scores.groups|](i requires 0 <= i < |scores.groups| => scores.groups[i]);
      user := scores.user;
    }
  }

  /** The columns of every student are an array of their own. */
  ghost predicate Separate(rows: seq<StudentRow>) {
    forall i, j :: 0 <= i < j < |rows| ==> rows[i].groups != rows[j].groups
  }

  ghost function Columns(rows: seq<StudentRow>): set<object> {
    set row | row in rows :: row.groups
  }

  class Standings {
    const assignments: array<TaskGroup>
    const rows: seq<StudentRow>

    constructor (assignments: array<TaskGroup>, rows: seq<StudentRow>)
      ensures this.assignments == assignments && this.rows == rows
    {
      this.assignments, this.rows := assignments, rows;
    }

    method ReverseScoreboardGroups()
      requires Separate(rows)
      modifies assignments, Columns(rows)
      ensures assignments[..] == Backwards(old(assignments[..]))
      ensures forall i :: 0 <= i < |rows| ==> rows[i].groups[..] == Backwards(old(rows[i].groups[..]))
    {
      ReverseSlice(assignments);
      for i := 0 to |rows|
        invariant assignments[..] == Backwards(old(assignments[..]))
        invariant forall k :: 0 <= k < i ==> rows[k].groups[..] == Backwards(old(rows[k].groups[..]))
        invariant forall k :: i <= k < |rows| ==> rows[k].groups[..] == old(rows[k].groups[..])
      {
        assert rows[i] in rows;
        ReverseSlice(rows[i].groups);
      }
    }
  }

  /**
   * One page over the fetcher's deadlines: the header is the file's assignments backwards,
   * every column lines up, and the fetcher's own array is as it was, so that the next page
   * comes out the same way round.
   */
  method RenderStandings(fetched: array<TaskGroup>, scores: seq<UserScores>) returns (page: Standings)
    requires forall i :: 0 <= i < |scores| ==> Aligned(fetched[..], scores[i].groups)
    ensures fetched[..] == old(fetched[..])
    ensures page.assignments[..] == Backwards(fetched[..]) && |page.rows| == |scores|
    ensures forall i :: 0 <= i < |scores| ==>
      && page.rows[i].user == scores[i].user && page.rows[i].groups[..] == Backwards(scores[i].groups)
      && Aligned(page.assignments[..], page.rows[i].groups[..])
  {
    var header := CopyDeadlines(fetched);
    var rows: seq<StudentRow> := [];
    for i := 0 to |scores|
      invariant |rows| == i && fresh(header) && header[..] == fetched[..] == old(fetched[..])
      invariant forall k :: 0 <= k < i ==> fresh(rows[k].groups) && rows[k].groups[..] == scores[k].groups && rows[k].user == scores[k].user
      invariant Separate(rows)
    {
      var row := new StudentRow(scores[i]);
      rows := rows + [row];
    }
    page := new Standings(header, rows);
    page.ReverseScoreboardGroups();
    forall i | 0 <= i < |scores|
      ensures Aligned(page.assignments[..], page.rows[i].groups[..])
    {
      BackwardsAligned(fetched[..], scores[i].groups);
    }
  }

  lemma TableScoresAligned(scores: UserScores, t: Tables, course: Course, workflow: Option<MergeRequestsConfig>, now: Time, user: User)
    requires Scoreboard.AreScoresOf(scores, t, course, workflow, now, user)
    ensures Aligned(course.assignments, scores.groups)
  {
    var inputs :| Scoreboard.Describes(inputs, t, course, workflow, now, user) && scores == UserScoresOf(course, inputs);
    ScoresAligned(course, inputs);
  }

  /**
   * The standings page from the tables: fetched is the array behind the group's deadlines.
   * Every row is a student's scores backwards, under the header of the same assignment.
   */
  method StandingsPage(
    db: DataBase, courses: map<string, Course>, workflow: Option<MergeRequestsConfig>, now: Time, group: string, filter: User -> bool,
    fetched: array<TaskGroup>)
    returns (page: Result<Standings, Scoreboard.ScoreError>, ghost scores: seq<UserScores>)
    requires db.Valid() && (group in courses ==> fetched[..] == courses[group].assignments)
    ensures page.Err? <==> group !in courses
    ensures fetched[..] == old(fetched[..])
    ensures page.Ok? ==>
      && |page.value.rows| == |scores| && page.value.assignments[..] == Backwards(courses[group].assignments)
      && forall i :: 0 <= i < |scores| ==>
           && Scoreboard.AreScoresOf(scores[i], db.View(), courses[group], workflow, now, page.value.rows[i].user)
           && page.value.rows[i].groups[..] == Backwards(scores[i].groups)
           && Aligned(page.value.assignments[..], page.value.rows[i].groups[..])
  {
    var standings := Scoreboard.CalcScoreboardWithFilter(db, courses, workflow, now, group, filter);
    scores := [];
    if standings.Err? {
      return Err(standings.error), scores;
    }
    var rows := standings.value;
    scores := rows;
    forall i | 0 <= i < |rows|
      ensures Scoreboard.AreScoresOf(rows[i], db.View(), courses[group], workflow, now, rows[i].user)
      ensures Aligned(fetched[..], rows[i].groups)
    {
      assert rows[i] in rows;
      TableScoresAligned(rows[i], db.View(), courses[group], workflow, now, rows[i].user);
    }
    var shown := RenderStandings(fetched, rows);
    page := Ok(shown);
  }
}
