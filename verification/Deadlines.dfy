/** The deadlines file and its scoring groups: internal/deadlines/deadlines.go. */
module Deadlines {
  import opened Wrappers
  import opened Models
  import opened ScoringPolicies

  datatype PolicySpec = PolicySpec(name: string, policy: ScoringPolicy)

  datatype Scoring = Scoring(
    policies: seq<PolicySpec>,
    groups: seq<ScoringGroup>,
    defaultGroup: string,
    finalDeadline: Option<Time>,
    retakePenalty: real)

  /**
   * The parsed file with its two indexes. The index of groups holds pointers into the
   * slice of scoring groups; here a pointer is a position.
   */
  datatype Indexed = Indexed(
    assignments: seq<TaskGroup>,
    scoring: Scoring,
    policies: map<string, ScoringPolicy>,
    groups: map<string, nat>)
  {
    ghost predicate Valid() {
      forall name :: name in groups ==> groups[name] < |scoring.groups|
    }

    function GroupName(group: TaskGroup): string {
      if group.group == "" then scoring.defaultGroup else group.group
    }

    /** The position of the group's scoring group, None if there is none of that name. */
    function GetScoringGroup(group: TaskGroup): Option<nat> {
      if GroupName(group) in groups then Some(groups[GroupName(group)]) else None
    }

    function GetScoringPolicy(group: TaskGroup): Option<ScoringPolicy>
      requires Valid()
    {
      match GetScoringGroup(group)
      case None => None
      case Some(at) =>
        var policy := scoring.groups[at].policy;
        if policy in policies then Some(policies[policy]) else None
    }
  }

  type Course = d: Indexed | d.Valid()
    witness Indexed([], Scoring([], [], "", None, 0.0), map[], map[])

  datatype BuildError = NoTitle(index: nat) | UnknownGroup(title: string, group: string)

  function IndexPolicies(specs: seq<PolicySpec>): map<string, ScoringPolicy> {
    if specs == [] then map[]
    else
      var spec := specs[|specs| - 1];
      IndexPolicies(specs[..|specs| - 1])[spec.name := spec.policy]
  }

  /** The last group of a name wins. */
  function IndexGroups(groups: seq<ScoringGroup>): map<string, nat> {
    if groups == [] then map[]
    else IndexGroups(groups[..|groups| - 1])[groups[|groups| - 1].name := |groups| - 1]
  }

  lemma {:induction false} IndexGroupsIsLast(groups: seq<ScoringGroup>, name: string)
    ensures var index := IndexGroups(groups);
            && (name in index <==> exists i :: 0 <= i < |groups| && groups[i].name == name)
            && (name in index ==>
                  && index[name] < |groups| && groups[index[name]].name == name
                  && forall i :: index[name] < i < |groups| ==> groups[i].name != name)
  {
    if groups != [] {
      IndexGroupsIsLast(groups[..|groups| - 1], name);
    }
  }

  /** The last spec of the name. */
  ghost predicate LastPolicy(specs: seq<PolicySpec>, name: string, at: int) {
    0 <= at < |specs| && specs[at].name == name && forall i :: at < i < |specs| ==> specs[i].name != name
  }

  ghost predicate LastGroup(groups: seq<ScoringGroup>, name: string, at: int) {
    0 <= at < |groups| && groups[at].name == name && forall i :: at < i < |groups| ==> groups[i].name != name
  }

  lemma {:induction false} IndexPoliciesIsLast(specs: seq<PolicySpec>, name: string)
    ensures name in IndexPolicies(specs) <==> exists i :: 0 <= i < |specs| && specs[i].name == name
    ensures name in IndexPolicies(specs) ==>
              exists at :: LastPolicy(specs, name, at) && IndexPolicies(specs)[name] == specs[at].policy
  {
    if specs != [] {
      var front, last := specs[..|specs| - 1], |specs| - 1;
      IndexPoliciesIsLast(front, name);
      if specs[last].name == name {
        assert LastPolicy(specs, name, last);
      } else if name in IndexPolicies(front) {
        var at :| LastPolicy(front, name, at) && IndexPolicies(front)[name] == front[at].policy;
        assert LastPolicy(specs, name, at);
      }
    }
  }

  function TasksTotal(tasks: seq<Task>): int {
    if tasks == [] then 0 else TasksTotal(tasks[..|tasks| - 1]) + tasks[|tasks| - 1].score
  }

  /** Scores of all tasks of the assignments that belong to the named scoring group. */
  function GroupTotal(d: Indexed, assignments: seq<TaskGroup>, name: string): int {
    if assignments == [] then 0
    else
      var last := assignments[|assignments| - 1];
      GroupTotal(d, assignments[..|assignments| - 1], name)
        + if d.GroupName(last) == name then TasksTotal(last.tasks) else 0
  }

  /** The first assignment that has no title or names an unknown group. */
  function FirstError(d: Indexed, from: nat): Option<BuildError>
    requires from <= |d.assignments|
    decreases |d.assignments| - from
  {
    if from == |d.assignments| then None
    else
      var assignment := d.assignments[from];
      if assignment.title == "" then Some(NoTitle(from))
      else if d.GetScoringGroup(assignment).None? then Some(UnknownGroup(assignment.title, assignment.group))
      else FirstError(d, from + 1)
  }

  function WithIndexes(d: Indexed): (r: Indexed)
    ensures r.Valid()
  {
    var r := d.(policies := IndexPolicies(d.scoring.policies), groups := IndexGroups(d.scoring.groups));
    assert r.Valid() by {
      forall name | name in r.groups ensures r.groups[name] < |r.scoring.groups| {
        IndexGroupsIsLast(d.scoring.groups, name);
      }
    }
    r
  }

  /** A zero maximum of an indexed group becomes the total of its tasks. */
  function WithMaxScores(d: Indexed): seq<ScoringGroup> {
    seq(|d.scoring.groups|, i requires 0 <= i < |d.scoring.groups| =>
      var group := d.scoring.groups[i];
      if group.name in d.groups && d.groups[group.name] == i && group.maxScore == 0
      then group.(maxScore := GroupTotal(d, d.assignments, group.name))
      else group)
  }

  function Build(d: Indexed): (r: (Indexed, Option<BuildError>))
    ensures r.0.Valid()
  {
    var indexed := WithIndexes(d);
    var err := FirstError(indexed, 0);
    if err.Some? then (indexed, err)
    else (indexed.(scoring := indexed.scoring.(groups := WithMaxScores(indexed))), None)
  }

  /** The scoring group that an assignment names, itself or by default. */
  ghost predicate InGroup(scoring: Scoring, assignment: TaskGroup, at: int) {
    LastGroup(scoring.groups, if assignment.group == "" then scoring.defaultGroup else assignment.group, at)
  }

  /** The policy that the file means for an assignment: the last one of the name that the last group of its name has. */
  ghost predicate HasPolicy(scoring: Scoring, assignment: TaskGroup, policy: ScoringPolicy) {
    exists g, p :: InGroup(scoring, assignment, g) && LastPolicy(scoring.policies, scoring.groups[g].policy, p) && scoring.policies[p].policy == policy
  }

  lemma BuiltGroup(d: Indexed, assignment: TaskGroup)
    ensures var found := Build(d).0.GetScoringGroup(assignment);
            && (found.Some? ==> InGroup(d.scoring, assignment, found.value))
            && (forall at :: InGroup(d.scoring, assignment, at) ==> found == Some(at))
  {
    IndexGroupsIsLast(d.scoring.groups, if assignment.group == "" then d.scoring.defaultGroup else assignment.group);
  }

  /** On a built file the indexes lead to what the lists say, also after the maxima are stored. */
  lemma BuiltPolicy(d: Indexed, assignment: TaskGroup)
    ensures var built := Build(d).0;
            && (forall at :: built.GetScoringGroup(assignment) == Some(at) <==> InGroup(d.scoring, assignment, at))
            && (forall policy :: built.GetScoringPolicy(assignment) == Some(policy) <==> HasPolicy(d.scoring, assignment, policy))
  {
    BuiltGroup(d, assignment);
    var at := Build(d).0.GetScoringGroup(assignment);
    if at.Some? {
      IndexPoliciesIsLast(d.scoring.policies, d.scoring.groups[at.value].policy);
    }
  }

  /** The file is as the lists say and nothing but maxima has changed. */
  lemma BuiltLists(d: Indexed)
    ensures var built := Build(d).0;
            && built.assignments == d.assignments && built.scoring == d.scoring.(groups := built.scoring.groups)
            && |built.scoring.groups| == |d.scoring.groups|
            && forall i :: 0 <= i < |d.scoring.groups| ==>
                 built.scoring.groups[i] == d.scoring.groups[i].(maxScore := built.scoring.groups[i].maxScore)
  {
  }

  /**
   * A successful build gives exactly the groups that a name leads to, and that have no maximum
   * of their own, the total of their tasks; a failed one changes no maximum.
   */
  lemma BuiltMaxima(d: Indexed, i: nat)
    requires i < |d.scoring.groups|
    ensures var group := d.scoring.groups[i];
            Build(d).0.scoring.groups[i].maxScore ==
              if Build(d).1.None? && group.maxScore == 0 && LastGroup(d.scoring.groups, group.name, i)
              then GroupTotal(d, d.assignments, group.name)
              else group.maxScore
  {
    var name := d.scoring.groups[i].name;
    IndexGroupsIsLast(d.scoring.groups, name);
    GroupTotalIgnoresGroups(WithIndexes(d), d, d.assignments, name);
  }

  ghost predicate IsNamed(scoring: Scoring, assignment: TaskGroup) {
    assignment.title != "" && exists at :: InGroup(scoring, assignment, at)
  }

  /** What is wrong with an assignment; a missing title comes first. */
  ghost predicate IsWrong(d: Indexed, i: nat, error: BuildError) {
    && i < |d.assignments|
    && if d.assignments[i].title == "" then error == NoTitle(i)
       else (forall at :: !InGroup(d.scoring, d.assignments[i], at)) && error == UnknownGroup(d.assignments[i].title, d.assignments[i].group)
  }

  /** The build fails exactly at the first assignment without a title or a listed scoring group. */
  lemma BuiltError(d: Indexed)
    ensures var error := Build(d).1;
            if error.None? then forall i :: 0 <= i < |d.assignments| ==> IsNamed(d.scoring, d.assignments[i])
            else exists i :: IsWrong(d, i, error.value) && forall k :: 0 <= k < i ==> IsNamed(d.scoring, d.assignments[k])
  {
    FirstErrorFrom(d, 0);
  }

  lemma NamedIsFound(d: Indexed, assignment: TaskGroup)
    ensures (exists at :: InGroup(d.scoring, assignment, at)) <==> WithIndexes(d).GetScoringGroup(assignment).Some?
  {
    var name := if assignment.group == "" then d.scoring.defaultGroup else assignment.group;
    IndexGroupsIsLast(d.scoring.groups, name);
    if name in WithIndexes(d).groups {
      assert InGroup(d.scoring, assignment, WithIndexes(d).groups[name]);
    }
  }

  lemma {:induction false} FirstErrorFrom(d: Indexed, from: nat)
    requires from <= |d.assignments|
    ensures var error := FirstError(WithIndexes(d), from);
            if error.None? then forall i :: from <= i < |d.assignments| ==> IsNamed(d.scoring, d.assignments[i])
            else exists i :: from <= i && IsWrong(d, i, error.value) && forall k :: from <= k < i ==> IsNamed(d.scoring, d.assignments[k])
    decreases |d.assignments| - from
  {
    if from < |d.assignments| {
      NamedIsFound(d, d.assignments[from]);
      if IsNamed(d.scoring, d.assignments[from]) {
        FirstErrorFrom(d, from + 1);
      } else {
        assert IsWrong(d, from, FirstError(WithIndexes(d), from).value);
      }
    }
  }

  class DeadlinesFile {
    var assignments: seq<TaskGroup>
    var scoring: Scoring
    var policies: map<string, ScoringPolicy>
    var groups: map<string, nat>

    function View(): Indexed
      reads this
    {
      Indexed(assignments, scoring, policies, groups)
    }

    constructor (assignments: seq<TaskGroup>, scoring: Scoring)
      ensures View() == Indexed(assignments, scoring, map[], map[])
    {
      this.assignments, this.scoring := assignments, scoring;
      policies, groups := map[], map[];
    }

    method BuildScoringGroups() returns (err: Option<BuildError>)
      modifies this
      ensures (View(), err) == Build(old(View()))
    {
      BuildIndexes();
      ghost var indexed := View();
      var maxScores;
      maxScores, err := CollectMaxScores();
      if err.None? {
        StoreMaxScores(maxScores, indexed);
      }
    }

    /** The totals of the groups without a configured maximum, or the first error. */
    method CollectMaxScores() returns (maxScores: map<string, int>, err: Option<BuildError>)
      requires View().Valid() && View() == WithIndexes(View())
      ensures err == FirstError(View(), 0)
      ensures err.None? ==> Tallied(View(), assignments, maxScores)
    {
      maxScores := map[];
      ghost var d := View();
      var i := 0;
      while i < |assignments|
        invariant 0 <= i <= |assignments|
        invariant Collected(d, i, maxScores)
      {
        var assignment := assignments[i];
        if assignment.title == "" {
          return maxScores, Some(NoTitle(i));
        }
        var group := View().GetScoringGroup(assignment);
        if group.None? {
          return maxScores, Some(UnknownGroup(assignment.title, assignment.group));
        }
        CollectStep(d, i, maxScores);
        maxScores := AddScores(scoring.groups[group.value], assignment, maxScores);
        i := i + 1;
      }
      assert assignments[..i] == assignments;
      err := None;
    }

    method BuildIndexes()
      modifies this`policies, this`groups
      ensures View() == WithIndexes(old(View()))
    {
      policies := map[];
      var i := 0;
      while i < |scoring.policies|
        invariant 0 <= i <= |scoring.policies|
        invariant policies == IndexPolicies(scoring.policies[..i])
      {
        assert scoring.policies[..i + 1][..i] == scoring.policies[..i];
        policies := policies[scoring.policies[i].name := scoring.policies[i].policy];
        i := i + 1;
      }
      assert scoring.policies[..i] == scoring.policies;

      groups := map[];
      i := 0;
      while i < |scoring.groups|
        invariant 0 <= i <= |scoring.groups|
        invariant groups == IndexGroups(scoring.groups[..i])
        invariant policies == IndexPolicies(scoring.policies)
      {
        assert scoring.groups[..i + 1][..i] == scoring.groups[..i];
        groups := groups[scoring.groups[i].name := i];
        i := i + 1;
      }
      assert scoring.groups[..i] == scoring.groups;
    }

    /** The loop over the map of totals, in any order. */
    method StoreMaxScores(maxScores: map<string, int>, ghost indexed: Indexed)
      requires View() == indexed && indexed == WithIndexes(indexed)
      requires Tallied(indexed, assignments, maxScores)
      modifies this`scoring
      ensures View() == indexed.(scoring := indexed.scoring.(groups := WithMaxScores(indexed)))
    {
      var rest := maxScores.Keys;
      while rest != {}
        invariant rest <= maxScores.Keys
        invariant scoring == indexed.scoring.(groups := Stored(indexed, maxScores, rest))
        decreases rest
      {
        var name :| name in rest;
        StoreStep(indexed, maxScores, rest, name);
        var at := groups[name];
        scoring := scoring.(groups := scoring.groups[at := scoring.groups[at].(maxScore := maxScores[name])]);
        rest := rest - {name};
      }
      assert Stored(indexed, maxScores, {}) == WithMaxScores(indexed);
    }
  }

  function TallyOf(maxScores: map<string, int>, name: string): int {
    if name in maxScores then maxScores[name] else 0
  }

  /** maxScores holds the totals of the groups without a configured maximum. */
  ghost predicate Tallied(d: Indexed, assignments: seq<TaskGroup>, maxScores: map<string, int>)
    requires d.Valid()
  {
    && (forall name :: name in maxScores ==> name in d.groups && d.scoring.groups[d.groups[name]].maxScore == 0)
    && (forall name :: name in d.groups && d.scoring.groups[d.groups[name]].maxScore == 0 ==>
          GroupTotal(d, assignments, name) == TallyOf(maxScores, name))
  }

  /** The body of the loop, for an assignment without errors. */
  method AddScores(group: ScoringGroup, assignment: TaskGroup, maxScores: map<string, int>) returns (more: map<string, int>)
    ensures more == Tally(group, assignment, maxScores)
  {
    more := maxScores;
    if group.maxScore == 0 {
      var totalScore := SumScores(assignment.tasks);
      more := more[group.name := TallyOf(more, group.name) + totalScore];
    }
  }

  /** The loop's state before assignment i: no error so far, and the totals of the ones before. */
  ghost predicate Collected(d: Indexed, i: nat, maxScores: map<string, int>)
    requires d.Valid() && i <= |d.assignments|
  {
    FirstError(d, 0) == FirstError(d, i) && Tallied(d, d.assignments[..i], maxScores)
  }

  /** maxScores with the tasks of one more assignment. */
  function Tally(group: ScoringGroup, assignment: TaskGroup, maxScores: map<string, int>): map<string, int> {
    if group.maxScore == 0
    then maxScores[group.name := TallyOf(maxScores, group.name) + TasksTotal(assignment.tasks)]
    else maxScores
  }

  lemma CollectStep(d: Indexed, i: nat, maxScores: map<string, int>)
    requires d == WithIndexes(d) && i < |d.assignments| && Collected(d, i, maxScores)
    requires d.assignments[i].title != "" && d.GetScoringGroup(d.assignments[i]).Some?
    ensures Collected(d, i + 1, Tally(d.scoring.groups[d.GetScoringGroup(d.assignments[i]).value], d.assignments[i], maxScores))
  {
    IndexedNames(d);
    TallyStep(d, d.assignments[..i], d.assignments[i], maxScores);
    assert d.assignments[..i + 1] == d.assignments[..i] + [d.assignments[i]];
  }

  lemma GroupTotalStep(d: Indexed, before: seq<TaskGroup>, assignment: TaskGroup, name: string)
    ensures GroupTotal(d, before + [assignment], name)
         == GroupTotal(d, before, name) + if d.GroupName(assignment) == name then TasksTotal(assignment.tasks) else 0
  {
    assert (before + [assignment])[..|before|] == before;
  }

  /** The index leads to groups of the name asked for. */
  ghost predicate NamesMatch(d: Indexed) {
    d.Valid() && forall name :: name in d.groups ==> d.scoring.groups[d.groups[name]].name == name
  }

  lemma IndexedNames(d: Indexed)
    requires d == WithIndexes(d)
    ensures NamesMatch(d)
  {
    forall name | name in d.groups
      ensures d.scoring.groups[d.groups[name]].name == name
    {
      IndexGroupsIsLast(d.scoring.groups, name);
    }
  }

  lemma TallyStep(d: Indexed, before: seq<TaskGroup>, assignment: TaskGroup, maxScores: map<string, int>)
    requires NamesMatch(d) && Tallied(d, before, maxScores) && d.GetScoringGroup(assignment).Some?
    ensures Tallied(d, before + [assignment], Tally(d.scoring.groups[d.GetScoringGroup(assignment).value], assignment, maxScores))
  {
    forall name
      ensures GroupTotal(d, before + [assignment], name)
           == GroupTotal(d, before, name) + if d.GroupName(assignment) == name then TasksTotal(assignment.tasks) else 0
    {
      GroupTotalStep(d, before, assignment, name);
    }
  }

  /** The scoring groups once the totals of all names but the rest are stored. */
  ghost function Stored(d: Indexed, maxScores: map<string, int>, rest: set<string>): seq<ScoringGroup> {
    seq(|d.scoring.groups|, i requires 0 <= i < |d.scoring.groups| =>
      var group := d.scoring.groups[i];
      if group.name in maxScores && group.name !in rest && group.name in d.groups && d.groups[group.name] == i
      then group.(maxScore := maxScores[group.name])
      else group)
  }

  lemma StoreStep(d: Indexed, maxScores: map<string, int>, rest: set<string>, name: string)
    requires d == WithIndexes(d) && name in rest && name in maxScores && name in d.groups
    ensures var before, at := Stored(d, maxScores, rest), d.groups[name];
            Stored(d, maxScores, rest - {name}) == before[at := before[at].(maxScore := maxScores[name])]
  {
    IndexGroupsIsLast(d.scoring.groups, name);
  }

  method SumScores(tasks: seq<Task>) returns (total: int)
    ensures total == TasksTotal(tasks)
  {
    total := 0;
    for j := 0 to |tasks|
      invariant total == TasksTotal(tasks[..j])
    {
      assert tasks[..j + 1][..j] == tasks[..j];
      total := total + tasks[j].score;
    }
    assert tasks[..|tasks|] == tasks;
  }

  lemma {:induction false} IndexIgnoresMaxScores(a: seq<ScoringGroup>, b: seq<ScoringGroup>)
    requires |a| == |b| && forall i :: 0 <= i < |a| ==> a[i].name == b[i].name
    ensures IndexGroups(a) == IndexGroups(b)
  {
    if a != [] {
      IndexIgnoresMaxScores(a[..|a| - 1], b[..|b| - 1]);
    }
  }

  lemma {:induction false} GroupTotalIgnoresGroups(d: Indexed, e: Indexed, assignments: seq<TaskGroup>, name: string)
    requires d.scoring.defaultGroup == e.scoring.defaultGroup
    ensures GroupTotal(d, assignments, name) == GroupTotal(e, assignments, name)
  {
    if assignments != [] {
      GroupTotalIgnoresGroups(d, e, assignments[..|assignments| - 1], name);
    }
  }

  lemma {:induction false} FirstErrorIgnoresGroups(d: Indexed, e: Indexed, from: nat)
    requires d.assignments == e.assignments && d.groups == e.groups && d.scoring.defaultGroup == e.scoring.defaultGroup
    requires from <= |d.assignments|
    ensures FirstError(d, from) == FirstError(e, from)
    decreases |d.assignments| - from
  {
    if from < |d.assignments| {
      FirstErrorIgnoresGroups(d, e, from + 1);
    }
  }

  /** Building twice changes nothing, whether the first build succeeded or failed. */
  lemma BuildIdempotent(d: Indexed)
    ensures Build(Build(d).0) == Build(d)
  {
    var indexed := WithIndexes(d);
    var (built, err) := Build(d);
    IndexIgnoresMaxScores(d.scoring.groups, built.scoring.groups);
    assert WithIndexes(built) == built;
    FirstErrorIgnoresGroups(indexed, built, 0);
    if err.None? {
      forall i | 0 <= i < |built.scoring.groups|
        ensures WithMaxScores(built)[i] == built.scoring.groups[i]
      {
        GroupTotalIgnoresGroups(indexed, built, d.assignments, built.scoring.groups[i].name);
      }
      assert WithMaxScores(built) == built.scoring.groups;
    }
  }
}
