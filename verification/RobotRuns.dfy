/** Runs put together step by step: an iteration of the robot while nothing else happens. */
module RobotRuns {
  import opened Wrappers
  import opened Models
  import opened Branches
  import opened Database
  import opened Robot
  import opened RobotProtocol

  /** A run with its actions, from any state. */
  datatype Stretch = Stretch(run: seq<State>, actions: seq<Action>)
  {
    ghost predicate Of(conf: Config) {
      && |run| == |actions| + 1
      && forall i :: 0 <= i < |actions| ==> Step(conf, run, actions, i)
    }

    function Last(): State
      requires run != []
    {
      run[|run| - 1]
    }

    function Then(action: Action, t: State): Stretch {
      Stretch(run + [t], actions + [action])
    }

    ghost predicate StartOf(longer: Stretch) {
      run <= longer.run && actions <= longer.actions
    }

    /** Since this stretch the robot has only read: gitlab is as it was. */
    ghost predicate OnlyReads(longer: Stretch) {
      && run != [] && |run| == |actions| + 1 && |longer.run| == |longer.actions| + 1 && StartOf(longer)
      && forall i :: |actions| <= i < |longer.actions| ==>
           !longer.actions[i].Happens? && !longer.actions[i].UpdateBranch? && longer.run[i + 1].gitlab == Last().gitlab
    }
  }

  lemma ThenStep(conf: Config, x: Stretch, action: Action, t: State)
    requires x.Of(conf) && Next(conf, x.Last(), action, t)
    ensures x.Then(action, t).Of(conf) && x.StartOf(x.Then(action, t)) && x.Then(action, t).Last() == t
  {
    var y := x.Then(action, t);
    forall i | 0 <= i < |y.actions|
      ensures Step(conf, y.run, y.actions, i)
    {
      assert i < |x.actions| ==> Step(conf, x.run, x.actions, i);
    }
  }

  /** The row of a request that stays as it was listed. */
  function RowNow(conf: Config, l: Listed): MergeRequest {
    RowOf(
      conf, l.iid, l.request, NotesInfoOf(l.request.notes), ChangesInfoOf(l.request.diff, ParseTaskFromBranch(l.request.branch)),
      LatestPipeline(l.request.pipelines))
  }

  function SyncedRows(conf: Config, rows: map<int, MergeRequest>, todo: seq<Listed>): map<int, MergeRequest>
    decreases |todo|
  {
    if todo == [] then rows else SyncedRows(conf, AfterUpsertMergeRequest(rows, RowNow(conf, todo[0])), todo[1..])
  }

  ghost predicate StillListed(todo: seq<Listed>, g: GitLab) {
    forall l :: l in todo ==> l.iid in g.requests && g.requests[l.iid] == l.request
  }

  lemma SyncOne(conf: Config, x: Stretch) returns (y: Stretch)
    requires x.Of(conf) && x.Last().robot.Syncing? && x.Last().robot.todo != [] && x.Last().robot.progress.Nothing?
    requires StillListed(x.Last().robot.todo, x.Last().gitlab)
    ensures y.Of(conf) && x.OnlyReads(y)
    ensures var s, t := x.Last(), y.Last();
            && t.robot == s.robot.(todo := s.robot.todo[1..])
            && t.rows == AfterUpsertMergeRequest(s.rows, RowNow(conf, s.robot.todo[0])) && t.clock > s.clock
  {
    var s := x.Last();
    var next, l := s.robot.todo[0], s.robot.listedAt;
    assert next in s.robot.todo;
    var notes := NotesInfoOf(next.request.notes);
    var changes := ChangesInfoOf(next.request.diff, ParseTaskFromBranch(next.request.branch));
    var pipeline := LatestPipeline(next.request.pipelines);
    var s1 := s.(robot := s.robot.(progress := GotNotes(notes, s.clock)), clock := s.clock + 1);
    var s2 := s1.(robot := s.robot.(progress := GotChanges(notes, s.clock, changes, s1.clock)), clock := s1.clock + 1);
    var s3 := s2.(robot := s.robot.(progress := GotPipeline(notes, s.clock, changes, s1.clock, pipeline, s2.clock)), clock := s2.clock + 1);
    var s4 := s3.(
      rows := AfterUpsertMergeRequest(s.rows, RowNow(conf, next)),
      readAt := s.readAt[next.iid := Reads(l, s.clock, s1.clock, s2.clock)],
      robot := s.robot.(todo := s.robot.todo[1..], progress := Nothing),
      clock := s3.clock + 1);
    ThenStep(conf, x, ReadNotes, s1);
    ThenStep(conf, x.Then(ReadNotes, s1), ReadChanges, s2);
    ThenStep(conf, x.Then(ReadNotes, s1).Then(ReadChanges, s2), ReadPipeline, s3);
    ThenStep(conf, x.Then(ReadNotes, s1).Then(ReadChanges, s2).Then(ReadPipeline, s3), Store, s4);
    y := x.Then(ReadNotes, s1).Then(ReadChanges, s2).Then(ReadPipeline, s3).Then(Store, s4);
  }

  lemma {:induction false} SyncAll(conf: Config, x: Stretch) returns (y: Stretch)
    requires x.Of(conf) && x.Last().robot.Syncing? && x.Last().robot.progress.Nothing?
    requires StillListed(x.Last().robot.todo, x.Last().gitlab)
    ensures y.Of(conf) && x.OnlyReads(y)
    ensures var s, t := x.Last(), y.Last();
            t.robot == s.robot.(todo := []) && t.rows == SyncedRows(conf, s.rows, s.robot.todo)
    decreases |x.Last().robot.todo|
  {
    var todo := x.Last().robot.todo;
    if todo == [] {
      y := x;
    } else {
      var z := SyncOne(conf, x);
      assert forall l :: l in todo[1..] ==> l in todo;
      ReadsKeep(x, z);
      y := SyncAll(conf, z);
      BothRead(x, z, y);
    }
  }

  lemma ReadsKeep(x: Stretch, y: Stretch)
    requires x.OnlyReads(y)
    ensures y.Last().gitlab == x.Last().gitlab
  {
    if |x.actions| < |y.actions| {
      assert !y.actions[|y.actions| - 1].Happens?;
    }
  }

  lemma BothRead(x: Stretch, y: Stretch, z: Stretch)
    requires x.OnlyReads(y) && y.OnlyReads(z)
    ensures x.OnlyReads(z)
  {
    forall i | |x.actions| <= i < |z.actions|
      ensures !z.actions[i].Happens? && !z.actions[i].UpdateBranch? && z.run[i + 1].gitlab == x.Last().gitlab
    {
      if i < |y.actions| {
        assert z.actions[i] == y.actions[i] && z.run[i + 1] == y.run[i + 1];
      } else {
        ReadsKeep(x, y);
      }
    }
  }

  lemma BeginSync(conf: Config, x: Stretch, listing: seq<Listed>) returns (y: Stretch)
    requires x.Of(conf) && x.Last().robot.Idle? && ListsRequests(listing, x.Last().gitlab)
    ensures y.Of(conf) && x.OnlyReads(y) && |x.actions| < |y.actions|
    ensures y.Last() == x.Last().(robot := Syncing(x.Last().clock, listing, Nothing), clock := y.Last().clock)
  {
    var s := x.Last();
    var t := s.(robot := Syncing(s.clock, listing, Nothing), clock := s.clock + 1);
    ThenStep(conf, x, ListRequests(listing), t);
    y := x.Then(ListRequests(listing), t);
  }

  lemma BeginUpdate(conf: Config, x: Stretch, found: seq<Branch>) returns (y: Stretch)
    requires x.Of(conf) && x.Last().robot.Syncing? && x.Last().robot.todo == [] && ListsBranches(found, x.Last().gitlab)
    ensures y.Of(conf) && x.OnlyReads(y)
    ensures y.Last().rows == x.Last().rows
    ensures y.Last().robot.Updating? && y.Last().robot.listedAt == x.Last().robot.listedAt
    ensures y.Last().robot.branches == Some(found) && y.Last().robot.cutoff == x.Last().gitlab.now - conf.reviewTtl
  {
    var s := x.Last();
    var t := s.(robot := Updating(s.robot.listedAt, s.clock, s.gitlab.now - conf.reviewTtl, None), clock := s.clock + 1);
    var u := t.(robot := t.robot.(branches := Some(found)), clock := t.clock + 1);
    ThenStep(conf, x, StartUpdate, t);
    ThenStep(conf, x.Then(StartUpdate, t), ListBranches(found), u);
    y := x.Then(StartUpdate, t).Then(ListBranches(found), u);
  }

  /** An idle robot lists and syncs everything and stands before its first branch, on the rows of that moment. */
  lemma Iterate(conf: Config, x: Stretch, listing: seq<Listed>, found: seq<Branch>) returns (y: Stretch)
    requires x.Of(conf) && x.Last().robot.Idle? && ListsRequests(listing, x.Last().gitlab) && ListsBranches(found, x.Last().gitlab)
    ensures y.Of(conf) && x.OnlyReads(y) && |x.actions| < |y.actions|
    ensures y.Last().gitlab == x.Last().gitlab && y.Last().rows == SyncedRows(conf, x.Last().rows, listing)
    ensures y.Last().robot.Updating? && y.Last().robot.listedAt == x.Last().clock
    ensures y.Last().robot.branches == Some(found) && y.Last().robot.cutoff == x.Last().gitlab.now - conf.reviewTtl
  {
    var z := BeginSync(conf, x, listing);
    var u := SyncAll(conf, z);
    BothRead(x, z, u);
    ReadsKeep(x, u);
    y := BeginUpdate(conf, u, found);
    BothRead(x, u, y);
    ReadsKeep(x, y);
  }
}
