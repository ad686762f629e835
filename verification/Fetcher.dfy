/** The pipelines fetcher without interference: internal/gitlab/pipelines.go. */
module Fetcher {
  import opened Wrappers
  import opened Models
  import opened Branches
  import opened Database
  import opened MergeRequestRefs
  import opened Selection

  /** Its address is what identifies a report. */
  class QualifiedPipelineID {
    const project: string
    const id: int

    constructor (project: string, id: int)
      ensures this.project == project && this.id == id
    {
      this.project, this.id := project, id;
    }
  }

  datatype GitPipelineInfo = GitPipelineInfo(id: int, ref: string, status: PipelineStatus, createdAt: Time)

  /** gitlab's answers during one poll, to every entry its own; None stands for an error. */
  type Answers = QualifiedPipelineID -> Option<GitPipelineInfo>

  ghost function RowOf(requests: map<int, MergeRequest>, project: string, info: GitPipelineInfo): Pipeline {
    Pipeline(info.id, project, TaskOfRef(requests, project, info.ref), info.status, info.createdAt)
  }

  /** The pipeline table after a poll of these pipelines, one after another. */
  ghost function AfterPoll(pipelines: map<int, Pipeline>, requests: map<int, MergeRequest>, project: string, infos: seq<GitPipelineInfo>): map<int, Pipeline> {
    if infos == [] then pipelines
    else AfterAddPipeline(AfterPoll(pipelines, requests, project, infos[..|infos| - 1]), RowOf(requests, project, infos[|infos| - 1]))
  }

  /** After a poll a pipeline has the status and the task of its last listing. */
  lemma {:induction false} LastListingStands(
    pipelines: map<int, Pipeline>, requests: map<int, MergeRequest>, project: string, infos: seq<GitPipelineInfo>, i: nat)
    requires i < |infos| && forall k :: i < k < |infos| ==> infos[k].id != infos[i].id
    ensures var after, id := AfterPoll(pipelines, requests, project, infos), infos[i].id;
            id in after && after[id].status == infos[i].status && after[id].task == TaskOfRef(requests, project, infos[i].ref)
  {
    if i < |infos| - 1 {
      LastListingStands(pipelines, requests, project, infos[..|infos| - 1], i);
    }
  }

  /** A poll never moves a pipeline to another project or start, and leaves unlisted rows alone. */
  lemma {:induction false} PolledRowsKept(
    pipelines: map<int, Pipeline>, requests: map<int, MergeRequest>, project: string, infos: seq<GitPipelineInfo>, id: int)
    requires id in pipelines
    ensures var after := AfterPoll(pipelines, requests, project, infos);
            && id in after && after[id].project == pipelines[id].project && after[id].startedAt == pipelines[id].startedAt
            && ((forall i :: 0 <= i < |infos| ==> infos[i].id != id) ==> after[id] == pipelines[id])
  {
    if infos != [] {
      PolledRowsKept(pipelines, requests, project, infos[..|infos| - 1], id);
    }
  }

  lemma {:induction false} NotPolled(
    pipelines: map<int, Pipeline>, requests: map<int, MergeRequest>, project: string, infos: seq<GitPipelineInfo>, id: int)
    requires id !in pipelines && forall i :: 0 <= i < |infos| ==> infos[i].id != id
    ensures id !in AfterPoll(pipelines, requests, project, infos)
  {
    if infos != [] {
      NotPolled(pipelines, requests, project, infos[..|infos| - 1], id);
    }
  }

  /** A pipeline without a row gets one of the polled project with the creation time of its first listing. */
  lemma {:induction false} FirstListingStarts(
    pipelines: map<int, Pipeline>, requests: map<int, MergeRequest>, project: string, infos: seq<GitPipelineInfo>, i: nat)
    requires i < |infos| && infos[i].id !in pipelines && forall k :: 0 <= k < i ==> infos[k].id != infos[i].id
    ensures var after, id := AfterPoll(pipelines, requests, project, infos), infos[i].id;
            id in after && after[id].id == id && after[id].project == project && after[id].startedAt == infos[i].createdAt
    decreases |infos|
  {
    var front := infos[..|infos| - 1];
    if i < |front| {
      FirstListingStarts(pipelines, requests, project, front, i);
    } else {
      NotPolled(pipelines, requests, project, front, infos[i].id);
    }
  }

  lemma {:induction false} PollInParts(
    pipelines: map<int, Pipeline>, requests: map<int, MergeRequest>, project: string, first: seq<GitPipelineInfo>, second: seq<GitPipelineInfo>)
    ensures AfterPoll(pipelines, requests, project, first + second)
         == AfterPoll(AfterPoll(pipelines, requests, project, first), requests, project, second)
    decreases |second|
  {
    if second == [] {
      assert first + second == first;
    } else {
      PollInParts(pipelines, requests, project, first, second[..|second| - 1]);
      assert (first + second)[..|first + second| - 1] == first + second[..|second| - 1];
    }
  }

  class PipelinesFetcher {
    const db: DataBase
    var reported: set<QualifiedPipelineID>

    constructor (db: DataBase)
      ensures this.db == db && reported == {}
    {
      this.db, reported := db, {};
    }

    /** Every call adds an entry, also for a pipeline that is already there. */
    method AddFresh(id: int, project: string)
      modifies this`reported
      ensures exists entry: QualifiedPipelineID :: fresh(entry) && entry.id == id && entry.project == project && reported == old(reported) + {entry}
    {
      var entry := new QualifiedPipelineID(project, id);
      reported := reported + {entry};
    }

    method FindTask(project: string, ref: string) returns (task: string)
      ensures task == TaskOfRef(db.requests, project, ref)
    {
      var resolved, isMergeRequest := MergeRequestPipelineTask(db, project, ref);
      if isMergeRequest && resolved != "" {
        return resolved;
      }
      task := ParseTaskFromBranch(ref);
    }

    method AddPipeline(project: string, info: GitPipelineInfo)
      requires db.Valid()
      modifies db`pipelines
      ensures db.Valid() && db.pipelines == AfterAddPipeline(old(db.pipelines), RowOf(db.requests, project, info))
    {
      var task := FindTask(project, info.ref);
      db.AddPipeline(Pipeline(info.id, project, task, info.status, info.createdAt));
    }

    method AddPage(project: string, page: seq<GitPipelineInfo>)
      requires db.Valid()
      modifies db`pipelines
      ensures db.Valid() && db.pipelines == AfterPoll(old(db.pipelines), db.requests, project, page)
    {
      for i := 0 to |page|
        invariant db.Valid() && db.pipelines == AfterPoll(old(db.pipelines), db.requests, project, page[..i])
      {
        assert page[..i + 1][..i] == page[..i];
        AddPipeline(project, page[i]);
      }
      assert page[..|page|] == page;
    }

    /** The pages of one project. */
    method FetchProjectPipelines(project: string, pages: seq<seq<GitPipelineInfo>>)
      requires db.Valid()
      modifies db`pipelines
      ensures db.Valid() && db.pipelines == AfterPoll(old(db.pipelines), db.requests, project, Flatten(pages))
    {
      ghost var was := db.pipelines;
      for p := 0 to |pages|
        invariant db.Valid() && AfterPoll(was, db.requests, project, Flatten(pages)) == AfterPoll(db.pipelines, db.requests, project, Flatten(pages[p..]))
      {
        assert pages[p..][1..] == pages[p + 1..];
        PollInParts(db.pipelines, db.requests, project, pages[p], Flatten(pages[p + 1..]));
        AddPage(project, pages[p]);
      }
    }

    /** One fetch: the answer, stored if there is one. */
    method Fetch(entry: QualifiedPipelineID, answers: Answers) returns (info: Option<GitPipelineInfo>)
      requires db.Valid()
      modifies db`pipelines
      ensures db.Valid() && info == answers(entry)
      ensures info.None? ==> db.pipelines == old(db.pipelines)
      ensures info.Some? ==> db.pipelines == AfterAddPipeline(old(db.pipelines), RowOf(db.requests, entry.project, info.value))
    {
      info := answers(entry);
      if info.Some? {
        AddPipeline(entry.project, info.value);
      }
    }

    /**
     * One poll of the reported pipelines, in any order: exactly the entries whose pipeline was
     * stored with a status other than running leave, and every answered pipeline has a row
     * with a status gitlab gave in this poll.
     */
    method FetchFreshPipelines(answers: Answers)
      requires db.Valid() && forall entry :: entry in reported ==> AnswersFor(answers, entry)
      modifies this`reported, db`pipelines
      ensures db.Valid()
      ensures reported == set entry | entry in old(reported) && (answers(entry) == None || answers(entry).value.status == Running)
      ensures AllStored(db.pipelines, old(reported), answers, old(reported))
      ensures forall id :: id !in Ids(old(reported)) ==> SameRow(db.pipelines, old(db.pipelines), id)
    {
      var removed: set<QualifiedPipelineID> := {};
      var rest := reported;
      while rest != {}
        invariant rest <= reported == old(reported) && db.Valid()
        invariant removed == set entry | entry in reported - rest && Done(answers(entry))
        invariant AllStored(db.pipelines, reported, answers, reported - rest)
        invariant forall id :: id !in Ids(reported) ==> SameRow(db.pipelines, old(db.pipelines), id)
        decreases rest
      {
        var entry :| entry in rest;
        ghost var before, seen := db.pipelines, reported - rest;
        rest := rest - {entry};
        var info := Fetch(entry, answers);
        assert reported - rest == seen + {entry};
        if info.Some? {
          StoredStep(before, db.pipelines, reported, answers, seen, entry, RowOf(db.requests, entry.project, info.value));
        }
        if info.Some? && info.value.status != Running {
          removed := removed + {entry};
        }
      }
      reported := reported - removed;
    }
  }

  /** gitlab answers about the pipeline it was asked for. */
  ghost predicate AnswersFor(answers: Answers, entry: QualifiedPipelineID) {
    answers(entry).Some? ==> answers(entry).value.id == entry.id
  }

  predicate Done(answer: Option<GitPipelineInfo>) {
    answer.Some? && answer.value.status != Running
  }

  ghost function Ids(reported: set<QualifiedPipelineID>): set<int> {
    set entry | entry in reported :: entry.id
  }

  ghost predicate SameRow(a: map<int, Pipeline>, b: map<int, Pipeline>, id: int) {
    (id in a <==> id in b) && (id in a ==> a[id] == b[id])
  }

  /** Every answered entry that was visited has a status that an entry for its pipeline brought. */
  ghost predicate AllStored(pipelines: map<int, Pipeline>, reported: set<QualifiedPipelineID>, answers: Answers, visited: set<QualifiedPipelineID>) {
    forall entry :: entry in visited && answers(entry).Some? ==> Stored(pipelines, reported, answers, entry.id)
  }

  ghost predicate Brings(entry: QualifiedPipelineID, answers: Answers, id: int, status: PipelineStatus) {
    entry.id == id && answers(entry).Some? && answers(entry).value.status == status
  }

  lemma StoredStep(
    before: map<int, Pipeline>, after: map<int, Pipeline>, reported: set<QualifiedPipelineID>, answers: Answers,
    seen: set<QualifiedPipelineID>, entry: QualifiedPipelineID, row: Pipeline)
    requires AllStored(before, reported, answers, seen) && entry in reported
    requires row.id == entry.id && Brings(entry, answers, row.id, row.status) && after == AfterAddPipeline(before, row)
    ensures AllStored(after, reported, answers, seen + {entry})
  {
    forall other | other in seen + {entry} && answers(other).Some?
      ensures Stored(after, reported, answers, other.id)
    {
      assert other.id != entry.id ==> after[other.id] == before[other.id];
    }
  }

  ghost predicate Stored(pipelines: map<int, Pipeline>, reported: set<QualifiedPipelineID>, answers: Answers, id: int) {
    id in pipelines && exists entry :: entry in reported && Brings(entry, answers, id, pipelines[id].status)
  }
}
