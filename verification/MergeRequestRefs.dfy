/**
 * Refs of merge request pipelines and the task behind them: parseMergeRequestRef and
 * MergeRequestPipelineTask of internal/database/database.go, taskOfRef of
 * internal/gitlab/pipelines.go and submissionOwner of internal/web/admin.go.
 */
module MergeRequestRefs {
  import opened Wrappers
  import opened Models
  import opened Strings
  import opened Branches
  import opened Database

  const REF_PREFIX := "refs/merge-requests/"
  const HEAD := "/head"
  const MERGE := "/merge"

  /** The largest int of a 64-bit platform; Atoi refuses more. */
  const MAX_INT := 0x7fff_ffff_ffff_ffff

  predicate IsDigit(c: char) {
    '0' <= c <= '9'
  }

  predicate IsDigits(s: string) {
    s != "" && forall i :: 0 <= i < |s| ==> IsDigit(s[i])
  }

  /** The length of the longest run of digits at the start. */
  function DigitsAhead(s: string): (n: nat)
    ensures n <= |s| && forall i :: 0 <= i < n ==> IsDigit(s[i])
    ensures n < |s| ==> !IsDigit(s[n])
  {
    if s == "" || !IsDigit(s[0]) then 0 else 1 + DigitsAhead(s[1..])
  }

  function ValueOf(digits: string): nat
    requires forall i :: 0 <= i < |digits| ==> IsDigit(digits[i])
  {
    if digits == "" then 0
    else
      var last := digits[|digits| - 1];
      assert IsDigit(last);
      10 * ValueOf(digits[..|digits| - 1]) + (last as int - '0' as int)
  }

  /** `^refs/merge-requests/(\d+)/(head|merge)$`, then Atoi. */
  function ParseMergeRequestRef(ref: string): Option<int> {
    if !HasPrefix(ref, REF_PREFIX) then None
    else
      var rest := ref[|REF_PREFIX|..];
      var n := DigitsAhead(rest);
      if n == 0 || (rest[n..] != HEAD && rest[n..] != MERGE) then None
      else
        var value := ValueOf(rest[..n]);
        if value <= MAX_INT then Some(value) else None
  }

  function Decimal(n: nat): (s: string)
    ensures IsDigits(s)
  {
    var last := ['0' + (n % 10) as char];
    if n < 10 then last else Decimal(n / 10) + last
  }

  lemma {:induction false} DecimalValue(n: nat)
    ensures ValueOf(Decimal(n)) == n
  {
    if 10 <= n {
      DecimalValue(n / 10);
      assert Decimal(n)[..|Decimal(n)| - 1] == Decimal(n / 10);
    }
  }

  lemma {:induction false} DigitsThenRest(digits: string, rest: string)
    requires forall i :: 0 <= i < |digits| ==> IsDigit(digits[i])
    requires rest != "" && !IsDigit(rest[0])
    ensures DigitsAhead(digits + rest) == |digits|
  {
    if digits == "" {
      assert digits + rest == rest;
    } else {
      DigitsThenRest(digits[1..], rest);
      assert (digits + rest)[1..] == digits[1..] + rest;
    }
  }

  predicate IsRef(ref: string, digits: string, kind: string) {
    IsDigits(digits) && (kind == "/head" || kind == "/merge") && ref == "refs/merge-requests/" + digits + kind
  }

  /** The refs that parse are the prefix, any decimal that fits an int, and one of the two kinds. */
  lemma ParsedRefs(ref: string, iid: int)
    ensures ParseMergeRequestRef(ref) == Some(iid) <==>
              exists digits, kind :: IsRef(ref, digits, kind) && ValueOf(digits) == iid <= 9_223_372_036_854_775_807
  {
    if ParseMergeRequestRef(ref) == Some(iid) {
      var rest := ref[|REF_PREFIX|..];
      var n := DigitsAhead(rest);
      assert rest == rest[..n] + rest[n..];
      assert ref == REF_PREFIX + rest;
      assert IsRef(ref, rest[..n], rest[n..]);
    }
    if digits, kind :| IsRef(ref, digits, kind) && ValueOf(digits) == iid <= MAX_INT {
      RefParses(digits, kind);
    }
  }

  lemma RefParses(digits: string, kind: string)
    requires IsDigits(digits) && (kind == HEAD || kind == MERGE)
    ensures ParseMergeRequestRef(REF_PREFIX + digits + kind) == if ValueOf(digits) <= MAX_INT then Some(ValueOf(digits)) else None
  {
    var ref := REF_PREFIX + digits + kind;
    assert ref[|REF_PREFIX|..] == digits + kind;
    assert ref[..|REF_PREFIX|] == REF_PREFIX;
    DigitsThenRest(digits, kind);
    assert (digits + kind)[|digits|..] == kind && (digits + kind)[..|digits|] == digits;
  }

  /** gitlab's own ref of a request names the request. */
  lemma RefRoundTrip(iid: nat, kind: string)
    requires iid <= MAX_INT && (kind == HEAD || kind == MERGE)
    ensures ParseMergeRequestRef(REF_PREFIX + Decimal(iid) + kind) == Some(iid)
  {
    DecimalValue(iid);
    RefParses(Decimal(iid), kind);
  }

  /** A merge request ref is no branch: as a task it stays as it is. */
  lemma RefIsNoBranch(ref: string)
    requires ParseMergeRequestRef(ref).Some?
    ensures !IsSubmitBranch(ref) && ParseTaskFromBranch(ref) == ref
  {
    assert ref[0] == REF_PREFIX[0] == 'r';
  }

  // The task

  predicate OfRequest(row: MergeRequest, project: string, iid: int) {
    row.project == project && row.iid == iid
  }

  /** The row with the least id, as the ORM's First picks it. */
  ghost predicate IsFirst(requests: map<int, MergeRequest>, project: string, iid: int, id: int) {
    && id in requests && OfRequest(requests[id], project, iid)
    && forall other :: other in requests && OfRequest(requests[other], project, iid) ==> id <= other
  }

  ghost function FindRequest(requests: map<int, MergeRequest>, project: string, iid: int): (found: Option<MergeRequest>)
    ensures found.Some? ==> exists id :: IsFirst(requests, project, iid, id) && found.value == requests[id]
  {
    if id :| IsFirst(requests, project, iid, id) then Some(requests[id]) else None
  }

  /** None for any other ref; the empty task stands for a request that is not synced yet. */
  ghost function RequestTask(requests: map<int, MergeRequest>, project: string, ref: string): Option<string> {
    match ParseMergeRequestRef(ref)
    case None => None
    case Some(iid) =>
      match FindRequest(requests, project, iid)
      case None => Some("")
      case Some(row) => Some(row.task)
  }

  ghost function TaskOfRef(requests: map<int, MergeRequest>, project: string, ref: string): string {
    match RequestTask(requests, project, ref)
    case None => ParseTaskFromBranch(ref)
    case Some(task) => if task != "" then task else ParseTaskFromBranch(ref)
  }

  /** The task an override of the pipeline goes to; None while it is not usable. */
  ghost function TargetTask(requests: map<int, MergeRequest>, pipeline: Pipeline): Option<string> {
    match RequestTask(requests, pipeline.project, pipeline.task)
    case None => Some(pipeline.task)
    case Some(task) => if task == "" then None else Some(task)
  }

  lemma {:induction false} HasFirst(requests: map<int, MergeRequest>, project: string, iid: int, id: int, ids: set<int>)
    returns (first: int)
    requires ids <= requests.Keys && id in requests && OfRequest(requests[id], project, iid)
    requires forall other :: other in requests && other !in ids && OfRequest(requests[other], project, iid) ==> id <= other
    ensures IsFirst(requests, project, iid, first)
    decreases ids
  {
    if other :| other in ids {
      first := HasFirst(requests, project, iid, if OfRequest(requests[other], project, iid) && other < id then other else id, ids - {other});
    } else {
      first := id;
    }
  }

  /** A row of the request is found, and it is the only candidate when iids are unique. */
  lemma FoundRequest(requests: map<int, MergeRequest>, project: string, iid: int, id: int)
    requires id in requests && OfRequest(requests[id], project, iid)
    requires forall other :: other in requests && OfRequest(requests[other], project, iid) ==> requests[other].task == requests[id].task
    ensures FindRequest(requests, project, iid).Some? && FindRequest(requests, project, iid).value.task == requests[id].task
  {
    var first := HasFirst(requests, project, iid, id, requests.Keys);
    assert IsFirst(requests, project, iid, first);
  }

  /** The query for the first row of the request: the table scanned in any order. */
  method FirstRequest(db: DataBase, project: string, iid: int) returns (found: Option<MergeRequest>)
    ensures found == FindRequest(db.requests, project, iid)
  {
    var rest, best := db.requests.Keys, None;
    while rest != {}
      invariant rest <= db.requests.Keys
      invariant best.None? ==> forall id :: id in db.requests && id !in rest ==> !OfRequest(db.requests[id], project, iid)
      invariant best.Some? ==>
        && best.value in db.requests && OfRequest(db.requests[best.value], project, iid)
        && forall id :: id in db.requests && id !in rest && OfRequest(db.requests[id], project, iid) ==> best.value <= id
      decreases rest
    {
      var id: int := Pick(rest);
      rest := rest - {id};
      if OfRequest(db.requests[id], project, iid) && (best.None? || id < best.value) {
        best := Some(id);
      }
    }
    if best.Some? {
      assert IsFirst(db.requests, project, iid, best.value);
      found := Some(db.requests[best.value]);
    } else {
      found := None;
    }
  }

  method MergeRequestPipelineTask(db: DataBase, project: string, ref: string) returns (task: string, isMergeRequest: bool)
    ensures RequestTask(db.requests, project, ref) == if isMergeRequest then Some(task) else None
  {
    var iid := ParseMergeRequestRef(ref);
    if iid.None? {
      return "", false;
    }
    var found := FirstRequest(db, project, iid.value);
    task, isMergeRequest := if found.Some? then found.value.task else "", true;
  }

  /** The student with the least id among those whose repository gives the project. */
  ghost predicate OwnsProject(users: map<string, User>, project: string, login: string) {
    && project != "" && login in users && users[login].project == Some(project)
    && forall other :: other in users && users[other].project == Some(project) ==> users[login].id <= users[other].id
  }

  method FindUserByProjectName(db: DataBase, project: string) returns (login: Option<string>)
    ensures login.Some? ==> OwnsProject(db.users, project, login.value)
    ensures login.None? ==> project == "" || forall other :: other in db.users ==> db.users[other].project != Some(project)
  {
    login := None;
    if project == "" {
      return;
    }
    var rest := db.users.Keys;
    while rest != {}
      invariant rest <= db.users.Keys
      invariant login.None? ==> forall other :: other in db.users && other !in rest ==> db.users[other].project != Some(project)
      invariant login.Some? ==>
        && login.value in db.users && db.users[login.value].project == Some(project)
        && forall other :: other in db.users && other !in rest && db.users[other].project == Some(project) ==> db.users[login.value].id <= db.users[other].id
      decreases rest
    {
      var next := Pick(rest);
      rest := rest - {next};
      if db.users[next].project == Some(project) && (login.None? || db.users[next].id < db.users[login.value].id) {
        login := Some(next);
      }
    }
  }

  /** Ids are unique, so there is one owner. */
  lemma OneOwner(t: Tables, project: string, a: string, b: string)
    requires t.Valid() && OwnsProject(t.users, project, a) && OwnsProject(t.users, project, b)
    ensures a == b
  {
    assert t.users[a].id <= t.users[b].id && t.users[b].id <= t.users[a].id;
  }

  datatype Owner = Owner(login: string, task: string)

  /** None when the pipeline, its request or its student is not known. */
  method SubmissionOwner(db: DataBase, pipelineID: int) returns (owner: Option<Owner>)
    requires db.Valid()
    ensures owner.Some? <==>
      && pipelineID in db.pipelines && TargetTask(db.requests, db.pipelines[pipelineID]).Some?
      && exists login :: OwnsProject(db.users, db.pipelines[pipelineID].project, login)
    ensures owner.Some? ==>
      && Some(owner.value.task) == TargetTask(db.requests, db.pipelines[pipelineID])
      && OwnsProject(db.users, db.pipelines[pipelineID].project, owner.value.login)
  {
    if pipelineID !in db.pipelines {
      return None;
    }
    var pipeline := db.pipelines[pipelineID];
    var task := pipeline.task;
    var resolved, isMergeRequest := MergeRequestPipelineTask(db, pipeline.project, pipeline.task);
    if isMergeRequest {
      if resolved == "" {
        return None;
      }
      task := resolved;
    }
    var login := FindUserByProjectName(db, pipeline.project);
    if login.None? {
      return None;
    }
    owner := Some(Owner(login.value, task));
  }
}
