/** The tables the scorer reads, as state: internal/database/database.go. */
module Database {
  import opened Wrappers
  import opened Models
  import opened Selection
  import opened Leaderboard

  /** A snapshot of the tables by primary key; users by their unique gitlab login. */
  datatype Tables = Tables(
    users: map<string, User>,
    pipelines: map<int, Pipeline>,
    flags: map<string, Flag>,
    overrides: map<OverrideKey, OverriddenScore>,
    requests: map<int, MergeRequest>,
    benchmarks: map<int, BenchmarkResult>,
    bans: map<int, SubmissionBan>)
  {
    ghost predicate Valid() {
      && (forall login :: login in users ==> users[login].gitlabLogin == login)
      && (forall a, b :: a in users && b in users && users[a].id == users[b].id ==> a == b)
      && (forall id :: id in pipelines ==> pipelines[id].id == id)
      && (forall id :: id in flags ==> flags[id].id == id)
      && (forall key :: key in overrides ==> OverrideKey(overrides[key].gitlabLogin, overrides[key].task) == key)
      && (forall id :: id in requests ==> requests[id].id == id)
      && (forall id :: id in benchmarks ==> benchmarks[id].pipelineID == id)
      && (forall id :: id in bans ==> bans[id].pipelineID == id)
    }
  }

  /** On a conflicting id only the status and the task are updated. */
  function AfterAddPipeline(pipelines: map<int, Pipeline>, row: Pipeline): map<int, Pipeline> {
    pipelines[row.id := if row.id in pipelines then pipelines[row.id].(status := row.status, task := row.task) else row]
  }

  /** A conflicting id keeps its iid, project, task and start. */
  function AfterUpsertMergeRequest(requests: map<int, MergeRequest>, row: MergeRequest): map<int, MergeRequest> {
    requests[row.id :=
      if row.id in requests
      then
        var was := requests[row.id];
        row.(iid := was.iid, project := was.project, task := was.task, startedAt := was.startedAt)
      else row]
  }

  /** The joined row of one benchmark result, if its pipeline and its student qualify. */
  function JoinRow(t: Tables, group: string, id: int): Option<GroupBenchmark> {
    if id !in t.benchmarks || id !in t.pipelines || id in t.bans then None
    else
      var result, pipeline := t.benchmarks[id], t.pipelines[id];
      if pipeline.task != result.task || pipeline.status != Success || result.gitlabLogin !in t.users then None
      else
        var user := t.users[result.gitlabLogin];
        if user.groupName != group || user.project.None? then None
        else Some(GroupBenchmark(result.gitlabLogin, user.firstName, user.lastName, result.task, id, result.metric, pipeline.startedAt))
  }

  /** Any listing of the join. */
  ghost predicate ListsBenchmarks(rows: seq<GroupBenchmark>, t: Tables, group: string) {
    forall row :: row in rows <==> JoinRow(t, group, row.pipelineID) == Some(row)
  }

  /**
   * A result is on the boards of a group if its pipeline is known, green, not banned and of the
   * result's task, and its login is that of a student of the group with a repository.
   */
  ghost predicate IsGroupBenchmark(t: Tables, group: string, row: GroupBenchmark) {
    var id, login := row.pipelineID, row.gitlabLogin;
    && id in t.benchmarks && t.benchmarks[id].gitlabLogin == login && t.benchmarks[id].task == row.task && t.benchmarks[id].metric == row.metric
    && id in t.pipelines && t.pipelines[id].status == Success && t.pipelines[id].task == row.task && t.pipelines[id].startedAt == row.submittedAt
    && id !in t.bans
    && login in t.users && t.users[login].groupName == group && t.users[login].project != None
    && t.users[login].firstName == row.firstName && t.users[login].lastName == row.lastName
  }

  lemma JoinedResults(rows: seq<GroupBenchmark>, t: Tables, group: string, row: GroupBenchmark)
    requires ListsBenchmarks(rows, t, group)
    ensures row in rows <==> IsGroupBenchmark(t, group, row)
  {
  }

  predicate IdLess(a: MergeRequest, b: MergeRequest) {
    a.id < b.id
  }

  class DataBase {
    var users: map<string, User>
    var pipelines: map<int, Pipeline>
    var flags: map<string, Flag>
    var overrides: map<OverrideKey, OverriddenScore>
    var requests: map<int, MergeRequest>
    var benchmarks: map<int, BenchmarkResult>
    var bans: map<int, SubmissionBan>

    function View(): Tables
      reads this
    {
      Tables(users, pipelines, flags, overrides, requests, benchmarks, bans)
    }

    ghost predicate Valid()
      reads this
    {
      View().Valid()
    }

    constructor ()
      ensures Valid() && View() == Tables(map[], map[], map[], map[], map[], map[], map[])
    {
      users, pipelines, flags, overrides := map[], map[], map[], map[];
      requests, benchmarks, bans := map[], map[], map[];
    }

    method AddPipeline(row: Pipeline)
      requires Valid()
      modifies this`pipelines
      ensures Valid() && View() == old(View()).(pipelines := AfterAddPipeline(old(pipelines), row))
      ensures row.id in pipelines && pipelines - {row.id} == old(pipelines) - {row.id}
      ensures var was := if row.id in old(pipelines) then old(pipelines)[row.id] else row;
              pipelines[row.id] == Pipeline(row.id, was.project, row.task, row.status, was.startedAt)
    {
      if row.id in pipelines {
        pipelines := pipelines[row.id := pipelines[row.id].(status := row.status, task := row.task)];
      } else {
        pipelines := pipelines[row.id := row];
      }
    }

    method UpsertMergeRequest(row: MergeRequest)
      requires Valid()
      modifies this`requests
      ensures Valid() && View() == old(View()).(requests := AfterUpsertMergeRequest(old(requests), row))
      ensures row.id in requests && requests - {row.id} == old(requests) - {row.id}
      ensures var was := if row.id in old(requests) then old(requests)[row.id] else row;
              requests[row.id] == row.(iid := was.iid, project := was.project, task := was.task, startedAt := was.startedAt)
    {
      if row.id in requests {
        var was := requests[row.id];
        requests := requests[row.id := row.(iid := was.iid, project := was.project, task := was.task, startedAt := was.startedAt)];
      } else {
        requests := requests[row.id := row];
      }
    }

    method BanSubmission(pipelineID: int, reason: string, adminLogin: string, now: Time)
      requires Valid()
      modifies this`bans
      ensures Valid() && View() == old(View()).(bans := old(bans)[pipelineID := SubmissionBan(pipelineID, reason, adminLogin, now)])
    {
      bans := bans[pipelineID := SubmissionBan(pipelineID, reason, adminLogin, now)];
    }

    method UnbanSubmission(pipelineID: int) returns (found: bool)
      requires Valid()
      modifies this`bans
      ensures Valid() && View() == old(View()).(bans := old(bans) - {pipelineID})
      ensures found <==> pipelineID in old(bans)
    {
      found := pipelineID in bans;
      bans := bans - {pipelineID};
    }

    method ListSubmissionBans() returns (rows: seq<SubmissionBan>)
      ensures forall row :: row in rows <==> row in bans.Values
    {
      rows := ListValues(bans, _ => true);
    }

    method ListAllPipelines() returns (rows: seq<Pipeline>)
      ensures forall row :: row in rows <==> row in pipelines.Values
    {
      rows := ListValues(pipelines, _ => true);
    }

    method ListProjectPipelines(project: string) returns (rows: seq<Pipeline>)
      ensures forall row :: row in rows <==> row in pipelines.Values && row.project == project
    {
      rows := ListValues(pipelines, (row: Pipeline) => row.project == project);
    }

    method ListSubmittedFlags() returns (rows: seq<Flag>)
      ensures forall row :: row in rows <==> row in flags.Values && row.gitlabLogin.Some?
    {
      rows := ListValues(flags, (row: Flag) => row.gitlabLogin.Some?);
    }

    method ListUserFlags(login: string) returns (rows: seq<Flag>)
      ensures forall row :: row in rows <==> row in flags.Values && row.gitlabLogin == Some(login)
    {
      rows := ListValues(flags, (row: Flag) => row.gitlabLogin == Some(login));
    }

    method ListOverrides() returns (rows: seq<OverriddenScore>)
      ensures forall row :: row in rows <==> row in overrides.Values
    {
      rows := ListValues(overrides, _ => true);
    }

    method ListUserOverrides(login: string) returns (rows: seq<OverriddenScore>)
      ensures forall row :: row in rows <==> row in overrides.Values && row.gitlabLogin == login
    {
      rows := ListValues(overrides, (row: OverriddenScore) => row.gitlabLogin == login);
    }

    /** Ordered by id, unlike the listings above. */
    method ListAllMergeRequests() returns (rows: seq<MergeRequest>)
      requires Valid()
      ensures forall row :: row in rows <==> row in requests.Values
      ensures StrictlySorted(rows, IdLess)
    {
      var unordered := ListValues(requests, _ => true);
      rows := OrderById(requests, unordered);
    }

    method ListProjectMergeRequests(project: string) returns (rows: seq<MergeRequest>)
      requires Valid()
      ensures forall row :: row in rows <==> row in requests.Values && row.project == project
      ensures StrictlySorted(rows, IdLess)
    {
      var unordered := ListValues(requests, (row: MergeRequest) => row.project == project);
      rows := OrderById(requests, unordered);
    }

    method ListGroupUsers(group: string) returns (rows: seq<User>)
      requires Valid()
      ensures forall row :: row in rows <==> row in users.Values && row.groupName == group && row.project.Some?
      ensures forall i, j :: 0 <= i < j < |rows| ==> rows[i].gitlabLogin != rows[j].gitlabLogin
    {
      rows := [];
      var rest := users.Keys;
      while rest != {}
        invariant rest <= users.Keys
        invariant forall row :: row in rows <==>
          row in users.Values && row.gitlabLogin !in rest && row.groupName == group && row.project.Some?
        invariant forall i, j :: 0 <= i < j < |rows| ==> rows[i].gitlabLogin != rows[j].gitlabLogin
        decreases rest
      {
        var login :| login in rest;
        var user := users[login];
        assert user in users.Values;
        assert forall row :: row in users.Values && row.gitlabLogin == login ==> row == user;
        if user.groupName == group && user.project.Some? {
          rows := rows + [user];
        }
        rest := rest - {login};
      }
    }

    method ListGroupBenchmarks(group: string) returns (rows: seq<GroupBenchmark>)
      requires Valid()
      ensures ListsBenchmarks(rows, View(), group)
      ensures forall row :: row in rows <==> IsGroupBenchmark(View(), group, row)
    {
      rows := [];
      var rest := benchmarks.Keys;
      while rest != {}
        invariant rest <= benchmarks.Keys
        invariant forall row :: row in rows <==> row.pipelineID !in rest && JoinRow(View(), group, row.pipelineID) == Some(row)
        decreases rest
      {
        var id := Pick(rest);
        var row := JoinRow(View(), group, id);
        if row.Some? {
          rows := rows + [row.value];
        }
        rest := rest - {id};
      }
      forall row
        ensures row in rows <==> IsGroupBenchmark(View(), group, row)
      {
        JoinedResults(rows, View(), group, row);
      }
    }
  }

  /** A query without an order: the rows come in any. */
  method ListValues<K(!new), V(!new)>(m: map<K, V>, keep: V -> bool) returns (rows: seq<V>)
    ensures forall row :: row in rows <==> (exists key :: key in m && m[key] == row) && keep(row)
  {
    rows := [];
    var rest := m.Keys;
    while rest != {}
      invariant rest <= m.Keys
      invariant forall row :: row in rows <==> (exists key :: key in m && key !in rest && m[key] == row) && keep(row)
      decreases rest
    {
      var key :| key in rest;
      ghost var before := rows;
      if keep(m[key]) {
        rows := rows + [m[key]];
      }
      forall row
        ensures row in rows <==> (exists k :: k in m && k !in rest - {key} && m[k] == row) && keep(row)
      {
        if row in rows && row !in before {
          assert key in m && key !in rest - {key} && m[key] == row;
        }
        if exists k :: k in m && k !in rest && m[k] == row {
          var k :| k in m && k !in rest && m[k] == row;
          assert k !in rest - {key};
        }
      }
      rest := rest - {key};
    }
  }

  ghost function KeyOf<K, V>(m: map<K, V>, value: V): (key: K)
    requires value in m.Values
    ensures key in m && m[key] == value
  {
    var key :| key in m && m[key] == value;
    key
  }

  method Pick<K>(keys: set<K>) returns (key: K)
    requires keys != {}
    ensures key in keys
  {
    key :| key in keys;
  }

  lemma SameIdSameRow(requests: map<int, MergeRequest>, a: MergeRequest, b: MergeRequest)
    requires forall id :: id in requests ==> requests[id].id == id
    requires a in requests.Values && b in requests.Values && a.id == b.id
    ensures a == b
  {
    var i, j := KeyOf(requests, a), KeyOf(requests, b);
  }

  function IdOf(row: MergeRequest): int {
    row.id
  }

  method OrderById(requests: map<int, MergeRequest>, rows: seq<MergeRequest>) returns (sorted: seq<MergeRequest>)
    requires forall id :: id in requests ==> requests[id].id == id
    requires forall row :: row in rows ==> row in requests.Values
    ensures forall row :: row in sorted <==> row in rows
    ensures StrictlySorted(sorted, IdLess)
  {
    sorted := [];
    for i := 0 to |rows|
      invariant Sorted(sorted, IdLess)
      invariant forall row :: row in sorted <==> row in rows[..i]
      invariant Distinct(sorted, IdOf)
    {
      assert forall row :: row in rows[..i + 1] <==> row in rows[..i] || row == rows[i];
      if rows[i] !in sorted {
        assert forall row :: row in sorted ==> row.id != rows[i].id by {
          assert rows[i] in rows;
          forall row | row in sorted && row.id == rows[i].id
            ensures row == rows[i]
          {
            assert row in rows;
            SameIdSameRow(requests, row, rows[i]);
          }
        }
        sorted := InsertNew(sorted, rows[i], IdLess, IdOf);
      }
    }
    assert rows[..|rows|] == rows;
    assert forall j, k :: 0 <= j < k < |sorted| ==> IdOf(sorted[j]) != IdOf(sorted[k]);
  }

  lemma BenchmarksDistinct(rows: seq<GroupBenchmark>, t: Tables, group: string)
    requires ListsBenchmarks(rows, t, group)
    ensures DistinctPipelines(rows)
  {
  }

  /** Synchronization never undoes moderation, and lifting a fresh ban restores the tables. */
  lemma BanAndUnban(t: Tables, pipelineID: int, ban: SubmissionBan)
    requires pipelineID !in t.bans
    ensures t.(bans := t.bans[pipelineID := ban] - {pipelineID}) == t
  {
  }
}
