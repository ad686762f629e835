# Verified model of notmanytask

notmanytask grades a programming course. Students push to `submits/<task>` branches on
gitlab; CI reports pipelines; a robot opens and merges requests; a scorer turns the synced
rows into task scores, ranks, totals and final marks; a renderer publishes the public part
of the private course repository; moderators search and ban submissions. This project models
those pieces in Dafny and proves what they promise.

Check everything with `dafny verify dfyconfig.toml`.

## Files

- `Wrappers`, `GoMath`, `Strings`, `Selection`: options and results, Go's conversions from
  float to int, string order and search, and the fold that picks one row of many.
- `Models`, `Database`, `Deadlines`, `ScoringPolicy`: rows, tables and the deadlines file as state.
- `TaskScore`, `Representative`, `Leaderboard`, `LeaderboardBuild`, `Scorer`: the scoring code.
- `Payments`, `Places`, `TaskCases`, `Totals`: what a student is shown, read off the tables and the
  lists of the deadlines file without the scoring code's functions.
- `ScorerTheorems`, `FinalMark`, `StatusTable`, `Standings`, `Moderation`, `ModerationWitness`:
  what holds of whole scores, for any order of rows, through the cached and the direct path, and
  under bans.
- `Branches`, `Robot`: what the merge request robot reads and decides. `RobotProtocol`,
  `RobotSafety`, `RobotRows`, `RobotQuiescence`, `RobotStops`, `RobotDecisions`, `RobotRuns`,
  `RobotWitness`, `RobotCounterexamples`: the robot among students, reviewers, CI and gitlab as a
  state machine, and what holds over every run.
- `MergeRequestRefs`, `Fetcher`, `PipelineProtocol`, `PipelineTheorems`, `PipelineWitness`: the
  other writers of pipeline rows, alone and interleaved.
- `Trees`, `EmptyDirs`, `RenderPlan`, `Render`, `RenderTheorems`, `Published`: the course renderer.
- `Like`, `AdminSubmissions`: the moderators' search and its pages. `Display`: the reversed page.

## Conventions

- A time is a natural number of seconds with 0 as the zero time; floats are reals, with Go's
  truncation and rounding defined on them. Ids and scores are unbounded integers, except where a
  merge request ref is read, which refuses what a 64-bit int cannot hold.
- Database tables are maps by primary key. Listings without an order are any listing, map
  iteration takes keys in any order, and the clock is a parameter.
- Where the source updates things step by step there is a method, proved against a function;
  the theorems are about that function, and where its value is what the user sees another
  theorem says it in literal terms: rows, paths, columns and numbers.
- In the protocols every step is atomic and all steps interleave freely. The environment has
  gitlab's rules: a merge with a wrong commit is refused, a branch has at most one open request,
  notes and pipelines are listed newest first, listings are complete.

## Where code and documentation disagree

- `docs/merge-requests.md:28-40` ranks changes outside the task above an empty diff and open
  threads above resolved ones; the constants at `internal/scorer/scorer.go:537-548` have both the
  other way round. The model follows the code.
- The same table shows every open request with wrong changes as failed; the code looks at
  comments first. `StatusTable.WrongChangesShownFailed` has the exact condition and
  `StatusTable.CommentedExtraChanges` an input.
- It has an open request pending when green; the code shows any that has not failed, is not
  broken and has no comments (`StatusTable.RequestStatus`, `StatusTable.PendingWithoutGreen`).
- `internal/scorer/scorer.go:695-697` says that the robot merges on its next pass once the
  announced wait is over. The wait looks at the notes of one request, the robot at those of all
  requests of the task: `StatusTable.AnnouncedWait` has the exact condition and
  `StatusTable.OlderRequestDelays` an input.
- The pages of the moderators' list are one list only while no two students share a project name
  (`AdminSubmissions.ResultUnique`, `AdminSubmissions.JoinedOnce`, `AdminSubmissions.TiedPages`).
- A group without a policy scores -1 for a green submission (`TaskScore.NegativeWithoutPolicy`),
  and a retake penalty above 1 lifts scores over the task's own (`TaskScore.WithinTaskScore`).

## Model

| member | source | states |
|---|---|---|
| `ScoringPolicies.ScoreDecays` | internal/deadlines/scoring.go:41-70 | Under either policy a task's points stay between 0 and its score and never grow with the submission time, before the deadline, across it and after it. |
| `ScoringPolicies.LinearFactor` | internal/deadlines/scoring.go:57-70 | Within the decay window the linear factor is the straight line from 1 down to the multiplier. |
| `TaskScore.SuccessDecays` | internal/scorer/scorer.go:499-532 | Policy decay, the final deadline and the retake floor together never grow with the submission time and stay within the task's score when the retake penalty is at most 1. |
| `TaskScore.WithinTaskScore` | internal/scorer/scorer.go:519-529 | A success stays within the task's own score exactly when the student has no retake or the retake floor is no higher than the score. |
| `TaskScore.RetakeAboveOne` | internal/scorer/scorer.go:519-529 | A retake penalty of 2 pays 20 points for a task of 10. |
| `TaskScore.NegativeWithoutPolicy` | internal/scorer/scorer.go:509-513 | A green submission scores below zero exactly when its group has no scoring policy. |
| `TaskScore.FullScoreDecays` | internal/scorer/scorer.go:430-442 | The whole score of a task, bonus included, never grows with the submission time. |
| `TaskScore.FullScoreBounded` | internal/scorer/scorer.go:430-442 | The whole score lies between 0 and the rounded score times one plus the bonus. |
| `TaskScore.BonusMonotone` | internal/scorer/leaderboard.go:120-129 | A better place or a higher base never pays less, and the bonus never takes points away. |
| `TaskScore.BonusAtTheEnds` | internal/scorer/leaderboard.go:120-129 | The first of several places gets the whole bonus and the last exactly the base. |
| `TaskScore.OffTheBoard` | internal/scorer/leaderboard.go:120-123 | Without a rank or a field there is no bonus. |
| `TaskScore.BonusSteps` | internal/scorer/leaderboard.go:120-129 | The share of the bonus falls by the same step from each place to the next. |
| `Representative.LoadUserPipelines` | internal/scorer/scorer.go:108-127 | The loop leaves for each task the least unbanned pipeline under the comparator. |
| `Representative.LoadUserFlags` | internal/scorer/scorer.go:129-145 | The loop leaves for each task the earliest flag. |
| `Representative.LoadUserMergeRequests` | internal/scorer/scorer.go:609-636 | The loop leaves for each task the best unbanned request and whether any of them has notes. |
| `Representative.LowestIdRepresents` | internal/scorer/scorer.go:585-597 | With rows ordered by id every other request is strictly worse than the chosen one or has no lower id. |
| `StatusTable.PipelineChosen` | internal/scorer/scorer.go:72-81 | The representative is the earliest green pipeline, else the latest one under way, else the latest failed one, and never a banned one. |
| `StatusTable.RequestChosen` | docs/merge-requests.md:42-44 | A merged request is never shadowed, among merged ones a creditable one with the earliest pipeline is taken, and a closed one shows only when all are closed. |
| `StatusTable.RequestStatus` | internal/scorer/scorer.go:638-693 | Success, failed, unresolved, resolved and pending are each shown exactly under their own condition on state, pipeline, conflict, notes and changes, and only a green merge has points. |
| `StatusTable.PendingWithoutGreen` | docs/merge-requests.md:38-39 | An open request whose pipeline still runs is shown as pending; the documentation has pending only when green. |
| `StatusTable.WrongChangesShownFailed` | docs/merge-requests.md:33-34 | An open request with changes outside the task, or none, is shown failed exactly while it is broken or has no comments; the documentation promises it always. |
| `StatusTable.CommentedExtraChanges` | internal/scorer/scorer.go:562-571 | A commented request with extra changes is shown as under review, not as failed. |
| `StatusTable.AnnouncedWait` | internal/scorer/scorer.go:697-710 | Of a request that the robot would merge some day an announced wait is right exactly when no request of the task has a review note later than both its own last note and its own last pipeline; no wait is right exactly when the last note of the task is old enough. |
| `StatusTable.OlderRequestDelays` | internal/gitlab/merge_requests.go:411-416 | A resolved note on a closed request of the task: ten seconds are announced, and the robot waits for seventy. |
| `Selection.BestIsLeast` | internal/scorer/scorer.go:116-124 | The selection loop ends with a least kept row, and with none only if no row is kept. |
| `Selection.BestIsFirst` | internal/scorer/scorer.go:619-626 | Ties keep the earlier row. |
| `Scorer.CalcUserScoresImpl` | internal/scorer/scorer.go:336-472 | The nested loops over groups and tasks compute the scores that the specification gives for the student's rows, boards, bans and overrides. |
| `Scorer.ScoreOneTask` | internal/scorer/scorer.go:393-455 | Flag before crashme before merge request or pipeline, then rank and bonus, then override. |
| `Scorer.ParseOverrides` | internal/scorer/scorer.go:325-334 | The last row of a student and task is the one in force. |
| `ScorerTheorems.TiedFactsScoreAlike` | internal/scorer/scorer.go:393-455 | Rows that tie under the comparators give the same status, score and rank. |
| `ScorerTheorems.ScoresIgnoreOrder` | internal/scorer/scorer.go:336-472 | Statuses, scores, totals and the final mark are the same for any order of the pipelines, flags and requests. |
| `ScorerTheorems.TaskMonotone` | internal/scorer/scorer.go:499-532 | Better facts about a task never lower its score while flag and override are the same. |
| `ScorerTheorems.MoreRowsNeverLower` | docs/merge-requests.md:20-24 | More unbanned pipelines and requests, and no worse places, never lower a task score, a total or the final mark. |
| `FinalMark.MarkRegrouped` | internal/scorer/scorer.go:457-466 | The mark accumulated assignment by assignment is the sum over scoring groups. |
| `FinalMark.ScoresMark` | internal/scorer/scorer.go:382-470 | The accumulated mark is the mark of the accumulated group totals. |
| `FinalMark.MarkBounded` | internal/scorer/scorer.go:382-470 | With maxima computed from the tasks and task scores within their own, the final mark is at most the sum of the weights of the groups in use, and equals it when every task is full and every such group has points. |
| `ScorerTheorems.TaskBounded` | internal/scorer/scorer.go:393-455 | Whatever the rows, a task without an override scores between 0 and its score with the whole bonus. |
| `FinalMark.PlainScoresWithin` | internal/scorer/scorer.go:382-470 | Without bonuses and overrides every task of a student scores within its own score. |
| `FinalMark.PlainMarkBounded` | internal/scorer/scorer.go:382-470 | The bound on the final mark for any rows of such a course. |
| `TaskCases.AlwaysShown` | internal/scorer/scorer.go:393-455 | By the tables, whatever the case: the task's name and score, whether there is an override, and on a board the student's rank. |
| `TaskCases.OverrideDecides` | internal/scorer/scorer.go:447-453 | An override row gives score and status, each status in the scorer's word for it. |
| `TaskCases.FlagSolves` | internal/scorer/scorer.go:402-415 | With a flag row and no override the task is solved and pays what a green submission at the earliest flag pays, whatever pipelines and requests say. |
| `TaskCases.CrashmeWaits` | internal/scorer/scorer.go:416-417 | A crashme task without a flag is assigned and has no points. |
| `TaskCases.GreenSolves` | internal/scorer/scorer.go:423-429 | Without a flag, in the pipeline workflow, the earliest unbanned green pipeline of the student's project scores the task. |
| `TaskCases.NotGreen` | internal/scorer/scorer.go:423-429 | Without a green one there are no points; one under way shows before a failed one, and only then any other. |
| `TaskCases.MergeSolves` | internal/scorer/scorer.go:418-422 | In the merge request workflow the request merged with the earliest green pipeline scores the task. |
| `TaskCases.MergeWithoutCredit` | internal/scorer/scorer.go:638-693 | Merged, but never with a green pipeline: failed, no points. |
| `TaskCases.MostUrgent` | internal/scorer/scorer.go:550-597 | Nothing merged: no points, and the status and message of the most urgent matter of all open requests: failed pipeline, no changes, changes outside, conflict, resolved threads, open threads, waiting. |
| `TaskCases.NothingOpen` | internal/scorer/scorer.go:638-693 | Only closed requests show as pending, none as assigned. |
| `TaskCases.EarnsIs` | internal/scorer/scorer.go:499-532 | What a green submission pays: the points under the policy that the file's lists name for the task's group, the course's final deadline and retake penalty, whether the student has a retake, and the bonus for the place that the tables give. |
| `Payments.TimelyIs` | internal/deadlines/scoring.go:41-70 | The whole score before the deadline, then the policy's share without its fraction, nothing past the final deadline. |
| `Payments.BaseIs` | internal/scorer/scorer.go:519-531 | With a retake at least the penalty's share of the score, else the points as they are. |
| `Payments.TotalIs` | internal/scorer/leaderboard.go:120-129 | The rounded score with the place's part of the bonus for a submission in time, else the score. |
| `Totals.TotalsShown` | internal/scorer/scorer.go:382-470 | Group scores, totals and maxima are the sums of what is shown, and the mark is the sum of weight times score over maximum of the scoring groups that the file's lists name. |
| `Deadlines.DeadlinesFile.BuildScoringGroups` | internal/deadlines/deadlines.go:102-138 | The indexes, the computed maxima and the first error are those of the specification, with the maxima stored in any map order. |
| `Deadlines.DeadlinesFile.CollectMaxScores` | internal/deadlines/deadlines.go:115-132 | The loop stops at the first assignment without title or known group and otherwise has the totals of all groups without a configured maximum. |
| `Deadlines.BuildIdempotent` | internal/deadlines/deadlines.go:102-138 | Building twice changes nothing, after a success and after a failure. |
| `Deadlines.IndexPoliciesIsLast` | internal/deadlines/deadlines.go:102-107 | A policy's name is known exactly if a listed policy has it, and stands for the last of that name. |
| `Deadlines.BuiltPolicy` | internal/deadlines/deadlines.go:140-166 | On a built file an assignment has the policy of the last listed name that the last listed group of its name, or of the default name, asks for. |
| `Deadlines.BuiltMaxima` | internal/deadlines/deadlines.go:124-136 | A successful build gives exactly the groups without a maximum of their own, the last of their name, the total of their tasks. |
| `Deadlines.BuiltLists` | internal/deadlines/deadlines.go:102-138 | Nothing else of the file changes. |
| `Deadlines.BuiltError` | internal/deadlines/deadlines.go:115-123 | The build fails exactly at the first assignment without a title or a listed scoring group, the title first. |
| `Deadlines.IndexGroupsIsLast` | internal/deadlines/deadlines.go:108-113 | A name refers to the last group that carries it. |
| `LeaderboardBuild.NewLeaderboards` | internal/scorer/leaderboard.go:36-50 | One empty board of its own per benchmark task, with the deadline of the last group that has it. |
| `LeaderboardBuild.FillLeaderboards` | internal/scorer/leaderboard.go:65-104 | Every board ends with one entry per student with an on-time result, the student's best one, sorted, and ranks that invert the entries. |
| `Leaderboard.BoardUnique` | internal/scorer/leaderboard.go:65-104 | Any two boards over the same rows in any order are equal. |
| `Leaderboard.BoardStrictlySorted` | internal/scorer/leaderboard.go:106-114 | With distinct pipeline ids no two entries tie. |
| `Leaderboard.RankCountsTheBetter` | internal/scorer/leaderboard.go:29-32 | A rank is one plus the number of students with a strictly better result. |
| `LeaderboardBuild.PlacingIsCounted` | internal/scorer/leaderboard.go:29-32 | On a filled board rank and size are the counted place. |
| `Leaderboard.PlaceIgnoresOrder` | internal/scorer/leaderboard.go:65-104 | A student's place does not depend on the order of the rows. |
| `Leaderboard.LosingOwnResults` | internal/scorer/leaderboard.go:65-104 | A student who loses results of their own keeps the size of the field or leaves it, and never moves up. |
| `Places.PlaceIs` | internal/scorer/leaderboard.go:65-114 | The place by the tables: one more than the students of the group with a counting result better than all of this one's, by metric, then time, then id, of all who have one. |
| `Places.BoardShows` | internal/scorer/leaderboard.go:65-114 | A board shows every student with a counting result once, with the full name and the best result, better ones first. |
| `Places.BoardDeadlineIs` | internal/scorer/leaderboard.go:36-50 | A board has the deadline of the last group with a bonus task of its name. |
| `Standings.CalcUserScores` | internal/scorer/scorer.go:292-318 | The home page's scores are what the tables say about the student. |
| `Standings.CalcScoreboardWithFilter` | internal/scorer/scorer.go:160-228 | The standings have one row per student of the group that passes the filter, higher marks first and of equal marks the name whose first different character is smaller, and each row from the cached providers is what the tables say about that student. |
| `Standings.ScoresDetermined` | internal/scorer/scorer.go:160-318 | Any two readings of the same tables at the same time agree, so the cached and the direct scores are equal. |
| `Standings.CachedEqualsDirect` | internal/scorer/scorer.go:160-318 | Every row of the standings equals the direct computation for its student. |
| `FinalMark.BuildTotals` | internal/deadlines/deadlines.go:102-138 | With no configured maximum a successful build makes every maximum the total of its group's tasks. |
| `Standings.MakeCachedProvider` | internal/scorer/scorer.go:230-290 | Each key's slice of the cache is the filter of all rows by that key, in order. |
| `Standings.CalcLeaderboards` | internal/scorer/leaderboard.go:52-63 | The boards of a group give every student the counted place. |
| `Moderation.BanNeverRaises` | internal/scorer/scorer.go:108-127 | Banning a pipeline raises no task score, total or final mark of the student whose benchmark row it may carry, in either workflow. |
| `Moderation.UnbanRestores` | internal/database/database.go:252-264 | Lifting the ban gives exactly the scores from before. |
| `Moderation.BanMovesOthers` | internal/scorer/leaderboard.go:65-104 | A ban that takes a student off a board makes the field one smaller and moves another student up by one exactly if the banned one was ahead. |
| `TaskScore.FractionWithout` | internal/scorer/leaderboard.go:120-129 | When a rival leaves the field a student loses a part of the bonus exactly if the rival was behind and the student not first. |
| `Leaderboard.RanksDiffer` | internal/scorer/leaderboard.go:65-114 | No two students share a rank. |
| `Moderation.BanLowersOthers` | internal/scorer/leaderboard.go:120-129 | A ban that takes a rival off the board lowers a student's bonus factor exactly if there is a bonus, the rival was behind and the student not first, and lowers points only then. |
| `ModerationWitness.BanCanLowerRival` | internal/scorer/scorer.go:292-318 | Tables with three students on one board: the ban of the third takes the second one's whole score from 150 to 100. |
| `Leaderboard.LosingRival` | internal/scorer/leaderboard.go:65-104 | When a student's last result goes, everybody behind moves up by one and the field shrinks by one. |
| `Strings.FirstDifference` | internal/scorer/scorer.go:220-225 | Names are compared by the first character that differs. |
| `Database.DataBase.AddPipeline` | internal/database/database.go:206-213 | A conflicting id keeps all but status and task. |
| `Database.DataBase.UpsertMergeRequest` | internal/database/database.go:325-343 | A conflicting id keeps its iid, project, task and start. |
| `Database.DataBase.BanSubmission` | internal/database/database.go:252-259 | One ban per pipeline, the latest; no other table changes. |
| `Database.DataBase.UnbanSubmission` | internal/database/database.go:261-264 | Reports whether there was a ban and leaves none. |
| `Database.DataBase.ListGroupBenchmarks` | internal/database/database.go:301-314 | Exactly the rows of the join of unbanned green pipelines of the task with students of the group. |
| `Database.JoinedResults` | internal/database/database.go:301-314 | A row of the join: a result whose pipeline is known, green, of its task and not banned, and whose student is in the group and has a repository. |
| `Database.OrderById` | internal/database/database.go:345-361 | The rows once each, in the order of their ids. |
| `Robot.GetNotesInfo` | internal/gitlab/merge_requests.go:199-228 | Over all pages: the first open thread stops the loop, the first dated review note sets the time. |
| `Robot.NotesInfoMeaning` | internal/gitlab/merge_requests.go:196-228 | With notes newest first an open thread is reported if there is one and the time is that of the last review note. |
| `Robot.InspectChanges` | internal/gitlab/merge_requests.go:236-257 | Clean exactly for a complete, non-empty diff inside the task's directory. |
| `Robot.GetLatestPipeline` | internal/gitlab/merge_requests.go:267-282 | The first listed pipeline with a time, else none. |
| `Robot.LatestIsFirstDated` | internal/gitlab/merge_requests.go:267-282 | Pipelines without a time are passed over. |
| `Robot.LoadBranchMergeRequests` | internal/gitlab/merge_requests.go:391-418 | The newest open and the newest merged request of the task, any open thread, and the last note. |
| `RobotProtocol.RunSane` | internal/gitlab/merge_requests.go:63-81 | gitlab's listings keep their order and nothing comes from the future, in every interleaving. |
| `RobotSafety.RunKnown` | internal/gitlab/merge_requests.go:86-114 | In every interleaving an iteration has synced all listed requests from the listing on, and its update runs on those rows. |
| `RobotSafety.RunFaithful` | internal/gitlab/merge_requests.go:117-174 | In every interleaving each row the robot has stored is what gitlab showed at the four reads of that sync, at any later time. |
| `RobotRows.StoredColumns` | internal/gitlab/merge_requests.go:117-174 | Every stored row of every run, column by column: what the listing showed, the merge status in the scorer's words, open threads and the last review note, no changes exactly for a complete empty diff, extra changes exactly for an overflow or a path outside the task, and the newest pipeline. |
| `RobotSafety.MergedOnEvidence` | internal/gitlab/merge_requests.go:318-386 | Every request the robot merges was, in that iteration, open and mergeable at the merged commit, non-empty and inside its task, green for longer than the review period, and no request of its task had an open thread or a recent note; the merged commit is the synced one and the row is creditable. |
| `RobotWitness.RobotCanMerge` | internal/gitlab/merge_requests.go:63-81 | A run in which nobody else opens or merges anything: the robot opens a request, CI turns it green and the robot merges it, so that the two writes of the bound are reached. |
| `RobotQuiescence.RowsMirror` | internal/gitlab/merge_requests.go:391-418 | While nobody else pushes, opens, closes or merges, a branch is decided on rows that mirror state, commit and creation time of its requests in gitlab exactly, whatever CI and reviewers do. |
| `RobotQuiescence.ReactOrderly` | internal/gitlab/merge_requests.go:391-418 | Every event but a reopening keeps open requests single, newest and at the head of their branch, if requests opened by hand are newer and tasks go on naming branches. |
| `RobotQuiescence.RunOrderly` | internal/gitlab/merge_requests.go:318-365 | So does every step of a well-behaved run, the robot's writes included. |
| `RobotQuiescence.QuietRobot` | internal/gitlab/merge_requests.go:318-365 | From any idle point of a well-behaved run from which on nobody else pushes, deletes branches, opens, closes, reopens or merges, while CI, comments, resolutions, mergeability checks and changes of the target branch go on: every write to a branch lowers a measure that starts at most at 2 and that nothing else moves. |
| `RobotStops.AtMostTwoWrites` | internal/gitlab/merge_requests.go:318-365 | Wherever a well-behaved run stands when others stop moving branches and requests, also in the middle of an iteration on old data, at most two more writes go to a branch, however long it runs and whatever CI reports. |
| `RobotStops.TwoWritesPerChange` | internal/gitlab/merge_requests.go:318-365 | In every well-behaved run, at any time, the robot has written to a branch at most twice for the start and twice for every push, deletion, opening, closing or merge by others. |
| `RobotStops.BusyWrites` | internal/gitlab/merge_requests.go:284-309 | The iteration under way writes at most once to a branch, and then at most one more write is called for. |
| `RobotQuiescence.QuietWrites` | internal/gitlab/merge_requests.go:318-372 | A creation takes the measure from 2 to 1, a merge from 1 to 0, and at 0 the robot writes no more. |
| `RobotDecisions.AcceptsExactly` | internal/gitlab/merge_requests.go:343-386 | On the rows of a task the robot merges exactly the newest open request, of equals the lowest id, if it and all the task's notes meet every condition. |
| `RobotDecisions.TurnCreates` | internal/gitlab/merge_requests.go:318-418 | In every run, if gitlab's requests are as listed: the robot opens a request exactly if the task has none open and its last merge, ties to the lowest id, is missing or at another known commit than the head; a settled branch is written to exactly under that condition. |
| `RobotDecisions.OrderlyLastMerge` | internal/gitlab/merge_requests.go:391-418 | In an orderly gitlab the last merge of the task is the newest of the branch, so that a settled branch is left alone. |
| `RobotCounterexamples.EqualTimesCreateAgain` | internal/gitlab/merge_requests.go:391-418 | A run without outside events, with two merged requests of one branch created at one instant, in which the robot opens a request for a branch that is settled. |
| `RobotCounterexamples.SharedTaskCreatesAgain` | internal/gitlab/merge_requests.go:367-372 | The same with two branches of one task. |
| `RobotCounterexamples.ReopenedCreatesAgain` | internal/gitlab/merge_requests.go:391-418 | A run from an orderly gitlab in which a request older than the last merge is reopened: the robot merges it and then opens another request for the commit it has just merged. |
| `Branches.SharedTask` | internal/gitlab/branch.go:10-16 | Two submit branches share a task exactly when they differ by one tasks/ prefix alone. |
| `Branches.TaskOfSubmitBranch` | internal/gitlab/branch.go:10-16 | The task is what follows the prefix, with or without tasks/. |
| `MergeRequestRefs.ParsedRefs` | internal/database/database.go:215-226 | The refs that parse are exactly the prefix, digits whose value fits an int, and head or merge. |
| `MergeRequestRefs.RefRoundTrip` | internal/database/database.go:215-226 | The ref gitlab writes for a request reads back as that request. |
| `MergeRequestRefs.MergeRequestPipelineTask` | internal/database/database.go:232-242 | The task of the first row of the request; empty while there is none; nothing for other refs. |
| `MergeRequestRefs.FindUserByProjectName` | internal/database/database.go:109-120 | The student with the least id whose repository gives the project, none for the empty project. |
| `MergeRequestRefs.OneOwner` | internal/database/database.go:109-120 | There is at most one such student. |
| `MergeRequestRefs.SubmissionOwner` | internal/web/admin.go:297-317 | An owner is found exactly when the pipeline, its target task and a student of its project are known, and is the first such student with that task. |
| `PipelineProtocol.RunInv` | internal/gitlab/pipelines.go:105-120 | Every row and every lookup in flight fits the ref or the request's task, in every interleaving of the two polls and the sync. |
| `PipelineTheorems.RowTasks` | internal/gitlab/pipelines.go:105-120 | A merge request pipeline's row has its raw ref or the request's task; any other row has the task of its branch. |
| `PipelineTheorems.RowStarts` | internal/gitlab/pipelines.go:105-120 | In every interleaving a row the writers have made keeps the pipeline's project and creation time. |
| `PipelineTheorems.LateLookup` | internal/gitlab/pipelines.go:105-120 | A poll stores the request's task exactly when the request's row was there with a task at the lookup, else the raw ref. |
| `PipelineTheorems.NoRelapse` | internal/gitlab/merge_requests.go:140-147 | Once the row and the lookups in flight have the request's task, the raw ref never comes back. |
| `PipelineWitness.LateStoreLosesTask` | internal/gitlab/pipelines.go:105-120 | A run of the protocol: a lookup before the sync, the sync, the late store that loses the task again, the report leaving, and the full poll that brings the task back. |
| `PipelineTheorems.OverrideTarget` | internal/web/admin.go:297-317 | With the request's row there, the override goes to the request's task exactly if that task is not empty while the raw ref is stored, and else reads as no ref or as that of a synced request of the project with the same task. |
| `PipelineTheorems.OverrideReachesTask` | internal/web/admin.go:297-317 | For a non-empty task that is no merge request ref the override always reaches it. |
| `PipelineTheorems.RefLikeTask` | internal/web/admin.go:302-308 | A branch named after another request's ref sends its override to that request's task. |
| `PipelineTheorems.NothingLost` | internal/gitlab/pipelines.go:72-76 | An entry leaves the fresh set only after a poll that read its pipeline after the report and stored a status other than running, however often the pipeline is reported. |
| `Fetcher.PipelinesFetcher.AddFresh` | internal/gitlab/pipelines.go:72-76 | Every report adds an entry of its own. |
| `Fetcher.PipelinesFetcher.FetchFreshPipelines` | internal/gitlab/pipelines.go:159-176 | One poll in any order, with an answer of its own for every entry: exactly the entries that came back in another status than running leave, and every answered pipeline has a status that one of its entries brought. |
| `Fetcher.PipelinesFetcher.FetchProjectPipelines` | internal/gitlab/pipelines.go:126-146 | The pages of a project leave the table that storing all their pipelines in order leaves. |
| `Fetcher.LastListingStands` | internal/gitlab/pipelines.go:112-120 | After a poll a pipeline has the status and task of its last listing. |
| `Fetcher.FirstListingStarts` | internal/gitlab/pipelines.go:112-120 | A pipeline without a row gets one of the polled project with the creation time of its first listing. |
| `Fetcher.PolledRowsKept` | internal/gitlab/pipelines.go:112-120 | A poll keeps project and start of every row and leaves unlisted rows alone. |
| `RenderPlan.IsExported` | internal/render/render.go:118-133 | Private segments and excludes first, then the cleaned task directories, then the includes. |
| `RenderPlan.CleanedTwice` | internal/render/render.go:128-128 | Joining a task to its directory gives a path without dots but for a climb at the start, and leaves a clean path as it is. |
| `RenderPlan.PublicTasks` | internal/render/render.go:84-107 | The tasks of any deadlines file, once each, sorted. |
| `RenderPlan.Plan` | internal/render/render.go:136-188 | Fails exactly for a missing public task or a bad pattern, and else lists exactly the exported files, once each, sorted. |
| `RenderPlan.ExportIsPublished` | internal/render/render.go:118-133 | Exported are exactly the regular files outside .git other than the manifest that have no segment private or solution, match no exclude pattern, and are below a public task's directory or match an include. |
| `RenderPlan.CheckLeaks` | internal/render/render.go:191-207 | Finds a forbidden text exactly if an exported file has one. |
| `Render.Render` | internal/render/render.go:211-291 | A failed plan or a leak leaves the output alone; else it succeeds exactly when no file is in the way of a directory or the reverse and there is a directory to walk, and the output is then the specified tree; .git is untouched even by a failure. |
| `Published.RenderPublished` | internal/render/render.go:211-291 | After a successful render the files of the output outside .git are exactly these, with the source's contents and without a forbidden text, and no directory is empty; what is in a .git is untouched, also by a failure. |
| `Published.WriteWhat` | internal/render/render.go:136-207 | Something is to be written exactly if every task is there, every pattern compiles and no such file has a forbidden text. |
| `Published.CleanedDots` | internal/render/render.go:128-128 | In a task's name a dot is nothing and two dots take the segment before them along. |
| `Published.PlainDirectory` | internal/render/render.go:128-128 | With plain names a task's directory is its name below the tasks' directory. |
| `Published.Trimmed` | internal/render/render.go:158-158 | Slashes are trimmed at both ends and nothing else. |
| `RenderTheorems.RenderedFiles` | internal/render/render.go:209-210 | Outside .git the output has exactly the exported files with the contents of the source. |
| `RenderTheorems.RenderedDirs` | internal/render/render.go:293-326 | No directory of the output outside .git is empty. |
| `RenderTheorems.RenderTwice` | internal/render/render.go:209-210 | A second render succeeds and leaves the same tree. |
| `RenderTheorems.RenderAgain` | internal/render/render.go:211-291 | Two renders in a row: if the first succeeds so does the second, the tree stays that of the first, nothing is reported added, updated or deleted and every exported file as unchanged. |
| `RenderTheorems.NoChanges` | internal/render/render.go:224-290 | The second summary reports nothing added, updated or deleted. |
| `RenderTheorems.SummaryPartition` | internal/render/render.go:238-286 | Added, updated and unchanged split the exported files, deleted is the old files besides them. |
| `Render.WriteOne` | internal/render/render.go:248-253 | Making the directory and writing the file succeed exactly when neither clashes with the old tree, whatever was written before. |
| `EmptyDirs.Output.RemoveEmptyDirs` | internal/render/render.go:293-326 | One pass, longest path first and ties in any order, removes exactly the directories that are or become empty. |
| `EmptyDirs.TurnOf` | internal/render/render.go:313-324 | At its turn a directory is empty exactly when nothing but removable directories was below it. |
| `EmptyDirs.PrunedTree` | internal/render/render.go:293-326 | No file, nothing of .git and not the root goes, and every directory that stays has something in it. |
| `EmptyDirs.PrunedTwice` | internal/render/render.go:293-326 | One pass is enough. |
| `Like.SearchIsContains` | internal/database/admin_submissions.go:110-116 | For all strings the pattern is well formed and matches exactly the strings that contain the search text. |
| `Like.EscapedReads` | internal/database/admin_submissions.go:74-76 | An escaped text reads back as its own characters in front of any pattern. |
| `Like.PatternsDiffer` | internal/database/admin_submissions.go:110-111 | Different searches give different patterns. |
| `Like.RawUnderscore` | internal/database/admin_submissions.go:74-76 | Without the escaping an underscore would match a letter. |
| `AdminSubmissions.SearchKeeps` | internal/database/admin_submissions.go:110-116 | The search keeps a row exactly if the login or the name contains the text. |
| `AdminSubmissions.NormalizePagination` | internal/database/admin_submissions.go:61-72 | In-range values stay, page sizes below 1 become 50, above 100 become 100. |
| `AdminSubmissions.ListedRows` | internal/database/admin_submissions.go:84-157 | Listed are exactly the pipelines with their student, result and ban that the kind, state, task, group and text ask for, latest first and then the greater id. |
| `AdminSubmissions.JoinedOnce` | internal/database/admin_submissions.go:84-90 | The join lists every pipeline once exactly if no two students' repositories give the project of one pipeline. |
| `AdminSubmissions.ListAdminSubmissions` | internal/database/admin_submissions.go:120-172 | The page is the requested one moved into 1 to the number of pages, is not empty if there are results, and is that slice of an ordered result of the join. |
| `AdminSubmissions.AllPages` | internal/database/admin_submissions.go:127-160 | The pages from first to last, put together, are the ordered result, everything once. |
| `AdminSubmissions.PagesFull` | internal/database/admin_submissions.go:127-160 | Only the last page can be short. |
| `AdminSubmissions.ResultUnique` | internal/database/admin_submissions.go:157-157 | The ordered result is the only one, so that separate requests see pages of one list, exactly if it has no pipeline twice. |
| `AdminSubmissions.OneStudentNoTies` | internal/database/admin_submissions.go:84-90 | With one student per project it is the only one. |
| `AdminSubmissions.TiedPages` | internal/database/admin_submissions.go:157-159 | Two rows of one pipeline can change places between requests: the same row is then on two pages. |
| `Display.ReverseSlice` | pkg/generic/slices.go:3-7 | The array backwards, in place. |
| `Display.CopyDeadlines` | internal/scorer/scorer.go:147-152 | A fresh array with the same groups. |
| `Display.Standings.ReverseScoreboardGroups` | internal/web/render.go:148-153 | The header and every student's groups are reversed, each once. |
| `Display.RenderStandings` | internal/web/render.go:148-153 | Header and columns that line up before do so after the reversal, and the fetcher's own array is as it was. |
| `Display.StandingsPage` | internal/web/render.go:213-218 | The page from the tables: every row is a student's scores backwards under the header of the same assignment, and the fetcher's array is untouched, so that the next page comes out the same way round. |
| `Display.ScoresAligned` | internal/scorer/scorer.go:382-461 | A student's groups and tasks line up with the deadlines file. |
| `Display.BackwardsTwice` | pkg/generic/slices.go:3-7 | Reversing twice gives the slice back. |

## Left out

- TaskScore.FullScoreDecays: is about courses whose policies resolve and decay, with scores and
  bonus not negative; the two lemmas above say what the code does without a policy or with a
  retake penalty above 1.
- Moderation.BanNeverRaises: has the same assumptions, and that the pipeline's benchmark row, if
  any, names the student; what it costs others is in `Moderation.BanLowersOthers`.
- TaskCases.FlagSolves: the cases are about courses as a build leaves them (`Build(course).0 ==
  course`, which `Deadlines.BuildIdempotent` gives for every built file).
- TaskCases.MergeSolves: whether such a task shows a review depends on who merged the request that
  represents it, which ties leave open; without a merge `TaskCases.MostUrgent` says it.
- Moderation.BanLowersOthers: the factor falls exactly under the condition; whether the rounded
  points fall too depends on their size.
- ScorerTheorems.TiedFactsScoreAlike: the link, message and review mark can differ between tied
  requests; status, score, rank and override cannot.
- RobotQuiescence.QuietRobot: needs creation times that increase, one branch per task and no
  reopening; the runs in `RobotCounterexamples` show what happens without each of them. It is
  about stretches in which others do not move branches or requests; for those that do there is
  `RobotStops.TwoWritesPerChange`, which counts two writes for every change, also on other branches.
- RobotDecisions.TurnCreates: asks that gitlab's requests are as they were when listed, as on the
  first turn of an undisturbed iteration; after a write to one branch of a shared task the others
  are decided on rows from before it.
- RobotSafety.MergedOnEvidence: the last pipeline is the request's newest, which the code does not
  check to have run on the merged commit.
- Display.RenderStandings: covers one page; the ten second cache around it keeps the reversed result.
- The exact exponential: any decay with value 1 at zero, positive and non-increasing; a zero
  multiplier, which makes the source divide by zero, counts as infinitely late even at the
  deadline itself.
- Rounding errors of floats, NaN and infinite metrics.
- Errors of the database, of gitlab and of the network, except where a step of a protocol may
  fail or an iteration may be given up at any point.
- Restarts of the server: the fresh set lives in memory and is gone after one.
- Deleted pipelines and requests in gitlab, and users that are not yet linked to a gitlab account.
- A request has one number for its id and its iid in the robot's protocol, which covers one
  project; the pipeline protocol keeps them apart.
- The message about the remaining wait is in seconds; the source rounds it to minutes.
- Project names from repository URLs, page links, short and pretty titles, lower-casing and
  trimming of the search text.
- Glob matching, YAML, dates and the manifest's own parsing; what exists above the source, which a
  task name may lead to, is a parameter.
- File modes, symbolic links and other special files in the renderer, and errors while reading
  the source.
- `FindTask` and `HasTask` of the deadlines, sessions, flags and overrides being written, OAuth,
  Telegram, templates and handlers: only easy members.
- Raw SQL of the admin statistics, migrations, and the columns of the admin page's join that no
  filter looks at.
