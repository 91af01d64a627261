# notmanytask, modelled in Dafny

notmanytask runs a programming course. Students sign up with the secret of their
group and link a GitLab or Gitea account. Each student gets a repository named
after them. Every task is submitted on its own `submits/<task>` branch, and the
CI pipeline's status scores it. The course's deadlines file splits the tasks
into groups, each with a deadline and a scoring policy. A solution pushed after
the deadline loses points, linearly or exponentially. Flags obtained from the
`crashme` service count as successful submissions at the time the flag was
created. The scorer turns all of this into each student's scores and the
group's standings. The web pages show them, and the command-line client reads
them back through the JSON API.

The model covers:

- the scorer: ranking of pipelines and flags, the per-task score, the late
  penalties, standings order, and the cached providers;
- the deadlines: the date format, the scoring policies and their YAML kind
  dispatch, the scoring-group bookkeeping, and the fetcher that loads every
  group's file;
- the database tables the scorer and the web handlers use;
- the branch and project naming helpers, and the GitLab and Gitea link
  builders;
- sign-up and session checks, flag submission and the reversals done for
  display;
- the API client's calls;
- the `crashme` server's first-line reader, flag fetching and accept loop.

How each piece is modelled:

- Pure code becomes functions and lemmas.
- Code that updates an object's fields becomes a class:
  - `Deadlines` (its maps are filled by `buildScoringGroups`);
  - `Fetcher` (its current snapshot is swapped by `reload`);
  - `DataBase` (one `map` per table);
  - `Scorer`.
- The loops of the source are methods proved against specification
  functions.

I/O, clocks, randomness and foreign code appear as parameters:

- an HTTP exchange is a `Result` of a reply;
- a YAML decoder is a partial function;
- the time of day is an integer number of seconds;
- `math.Exp` is a `decay` function;
- the UUID is a string argument.

## Model

| member | source | states |
|---|---|---|
| Branches.MakeBranchForTask | internal/platform/base/base_pipelines.go:53-55 | the branch is `submits/` followed by exactly the task name |
| Branches.ParseTaskFromBranch | internal/platform/base/base_pipelines.go:49-51 | a `submits/` branch yields what follows the prefix; any other branch is returned unchanged; the result is always a suffix of the branch |
| Branches.ParseMakeRoundTrip | internal/platform/base/base_pipelines.go:49-55 | parsing the branch made for a task gives the task back |
| Branches.MakeParseRoundTrip | internal/platform/base/base_pipelines.go:49-55 | every `submits/` branch is the branch made for the task parsed from it |
| Branches.StripsOnePrefix | internal/platform/base/base_pipelines.go:49-51 | only one prefix is stripped: `submits/submits/t` parses to `submits/t` |
| GitlabBranches.MakeBranchForTask | internal/gitlab/pipelines.go:199-201 | the branch is the GitLab prefix followed by the task |
| GitlabBranches.ParseTaskFromBranch | internal/gitlab/pipelines.go:195-197 | strips the prefix when present and returns the branch unchanged otherwise |
| GitlabBranches.RoundTrip | internal/gitlab/pipelines.go:195-201 | parsing a made branch gives the task back |
| GitlabBranches.AgreesWithBase | internal/gitlab/pipelines.go:191-201 | the GitLab helpers and the shared base helpers agree on every task and every branch |
| ClientBase.CleanupName | internal/platform/base/base_client.go:41-52 | a cleaned name has no `-` and no `'` |
| ClientBase.StripNameMarksIdempotent | internal/platform/base/base_client.go:43-51 | the `-`/`'` filter is idempotent |
| ClientBase.CleanupLogin | internal/platform/base/base_client.go:54-56 | the result has no `__`, is no longer than the login, and keeps a first character that is not `_` |
| ClientBase.CleanupLoginRun | internal/platform/base/base_client.go:54-56 | a run of k underscores collapses to k mod 2 underscores, because the replacement is not repeated |
| ClientBase.CleanupLoginKeepsOthers | internal/platform/base/base_client.go:54-56 | the characters other than `_` are kept, in order |
| ClientBase.CleanupLoginFixes | internal/platform/base/base_client.go:54-56 | a login without `__` is left unchanged |
| ClientBase.CleanupLoginIdempotent | internal/platform/base/base_client.go:54-56 | cleaning a login twice is cleaning it once |
| GitlabClient.MakeProjectWithNamespace | internal/platform/gitlab/gitlab_client.go:160-162 | the path is the group name, `/`, then the project |
| GitlabClient.MakeTaskURL | internal/platform/gitlab/gitlab_client.go:174-176 | the task URL is the task prefix, `/`, then the task |
| GitlabClient.InitializeProject | internal/platform/gitlab/gitlab_client.go:22-26 | fails with "Empty gitlab user" exactly when the id or the login is missing, otherwise names the project |
| GitlabClient.ProjectNameParts | internal/platform/gitlab/gitlab_client.go:146-148 | the project name is the group, then the cleaned first name, last name and login, separated by dashes, and these parts can be split back |
| GitlabClient.LinksExtendProjectURL | internal/platform/gitlab/gitlab_client.go:150-172 | the project, jobs, pipeline and branch links extend the project URL with `/-/jobs`, `/-/pipelines/<id>` and `/-/tree/submits/<task>` |
| GiteaClient.MakeProjectWithNamespace | internal/platform/gitea/gitea_client.go:139-141 | the path is the organization, `/`, then the project |
| GiteaClient.MakeTaskURL | internal/platform/gitea/gitea_client.go:153-155 | the task URL is the task prefix, `/`, then the task |
| GiteaClient.InitializeProject | internal/platform/gitea/gitea_client.go:21-25 | fails with "Empty gitea user" exactly when the id or the login is missing, otherwise names the project |
| GiteaClient.ProjectNameParts | internal/platform/gitea/gitea_client.go:125-127 | the project name is the group, then the cleaned first name, last name and login, separated by dashes, and these parts can be split back |
| GiteaClient.LinksExtendProjectURL | internal/platform/gitea/gitea_client.go:129-151 | the links extend the project URL with `/actions`, `/actions/runs/<id>` and `/src/branch/<task>` |
| GiteaClient.BranchURLMissesSubmitBranch | internal/platform/gitea/gitea_client.go:148-151 | the branch link names the bare task, not the `submits/<task>` branch the pipelines run on |
| GiteaClient.MakeSubmitBranchURL | internal/platform/gitea/gitea_pipelines.go:87 | the corrected branch link ends in a branch that parses back to the pipeline's task |
| Results.ClassifyPipelineStatus | internal/scorer/results.go:17-30 | failed maps to failed; pending and running map to checking; success maps to success; anything else maps to assigned (each as an if-and-only-if) |
| Results.User.FullName | internal/scorer/results.go:59-61 | the first name, one space, then the last name |
| Ranking.Rank | internal/scorer/scorer.go:43-56 | the rank is at most 3 and identifies failed, checking (pending or running) and success exactly |
| Ranking.RankAgreesWithStatus | internal/scorer/scorer.go:43-56 | a pipeline's rank and the task status it is shown with classify every status the same way |
| Ranking.PipelineLessOrder | internal/scorer/scorer.go:58-64 | the pipeline order (better rank, then earlier start) is a strict weak order |
| Ranking.FlagLessOrder | internal/scorer/scorer.go:101 | the flag order (earlier creation) is a strict weak order |
| Ranking.PipelineLessTransitive | internal/scorer/scorer.go:58-64 | the pipeline order is irreflexive, transitive and asymmetric |
| Ranking.BestPerTaskKeys | internal/scorer/scorer.go:79-87 | the kept map has exactly the tasks that occur in the list |
| Ranking.BestPerTaskIsFirstBest | internal/scorer/scorer.go:79-87 | for each task, the kept element is the first element no other element of that task beats |
| Ranking.FirstBestUnique | internal/scorer/scorer.go:79-87 | that element is unique, and nothing of the same task is better |
| Ranking.KeepBest | internal/scorer/scorer.go:79-87 | the loop keeps exactly the best-per-task map |
| Ranking.LoadUserPipelines | internal/scorer/scorer.go:73-89 | the provider's error is wrapped with the source's message; otherwise the result is the best pipeline per task |
| Ranking.LoadUserFlags | internal/scorer/scorer.go:91-107 | the provider's error is wrapped; otherwise the result is the earliest flag per task |
| Providers.Bucket | internal/scorer/scorer.go:156-164 | a bucket holds only elements of the list with that key |
| Providers.BucketOfAbsentKey | internal/scorer/scorer.go:166-168 | a key no element has gets the empty list |
| Providers.BucketsPermute | internal/scorer/scorer.go:156-164 | every element lies in its own key's bucket as often as in the list, and in no other bucket |
| Providers.Partition | internal/scorer/scorer.go:156-164 | the grouping loop builds a map whose keys are exactly the keys present and whose values are the buckets |
| Providers.CachedProvider | internal/scorer/scorer.go:166-168 | the closure answers every key with its bucket and never fails |
| Providers.MakeCachedPipelinesProvider | internal/scorer/scorer.go:150-169 | each project's pipelines are those of the full listing whose project matches |
| Providers.MakeCachedFlagsProvider | internal/scorer/scorer.go:171-190 | each login's flags are the claimed flags of that login, and every flag handed out is claimed by it |
| LateScores.GoDiv | internal/scorer/scorer.go:310 | integer division truncating toward zero, stated as bounds on the quotient for each sign |
| LateScores.LinearScore | internal/scorer/scorer.go:297-316 | zero unless the pipeline succeeded, otherwise the linear late score of the group's deadline |
| LateScores.LinearLate | internal/scorer/scorer.go:302-315 | the full score before the deadline, and half the score (truncated) more than a week after it |
| LateScores.WindowIsLinearMultiplier | internal/scorer/scorer.go:313 | inside the week the penalty equals the linear policy's multiplier with a one-week window and factor 0.5 |
| LateScores.ExponentialScore | internal/scorer/scorer.go:318-331 | zero unless the pipeline succeeded, otherwise the exponential late score |
| LateScores.ExponentialLate | internal/scorer/scorer.go:323-330 | the full score before the deadline |
| LateScores.LinearLateIsLinearPolicy | internal/scorer/scorer.go:297-316 | the scorer's linear penalty equals the `linear` scoring policy with a one-week window and factor 0.5, for every time |
| LateScores.ExponentialLateIsPolicy | internal/scorer/scorer.go:318-331 | the scorer's exponential penalty equals the `exp` scoring policy with the same scale and threshold |
| LateScores.ScorePipelineBounds | internal/scorer/scorer.go:333-336 | a late successful pipeline scores between the threshold's share of the task and the task's full score |
| LateScores.LinearScoreTestValues | internal/scorer/scorer_test.go:62-71 | for a 9000-point task: 9000 before the deadline, 4500 a week after it, 0 for pending, running and failed pipelines |
| LateScores.ExponentialScoreTestValues | internal/scorer/scorer_test.go:81-91 | for a 9000-point task: 9000 before the deadline, always between 2700 and 9000 when successful, 0 otherwise |
| Scoring.TruncBounds | internal/deadlines/scoring.go:67 | the conversion of a real to an int truncates toward zero: the result is the integer next to the value on the side of zero |
| Scoring.ScaledMonotone | internal/deadlines/scoring.go:67 | for a non-negative task score, a larger share never scales to fewer points, and the full share gives the score itself |
| Scoring.Policy.Score | internal/deadlines/scoring.go:39-68 | every policy gives the full score to a submission before the deadline |
| Scoring.LinearScoreAfterWindow | internal/deadlines/scoring.go:55-68 | once the window has passed, the linear policy gives the multiplier's share of the score |
| Scoring.LinearScoreMonotoneLate | internal/deadlines/scoring.go:55-68 | of two late submissions, the later one never scores more under the linear policy |
| Scoring.LinearMultiplierRange | internal/deadlines/scoring.go:59-65 | 1 at the deadline, the multiplier once the window has passed, and between the two in the window |
| Scoring.LinearMultiplierMonotone | internal/deadlines/scoring.go:59-65 | the multiplier never grows with lateness |
| Scoring.LinearScoreMonotone | internal/deadlines/scoring.go:55-68 | a later submission never scores more under the linear policy |
| Scoring.LinearScoreBounds | internal/deadlines/scoring.go:55-68 | a late score lies between the multiplier's share and the full score |
| Scoring.ExponentialScoreBounds | internal/deadlines/scoring.go:39-46 | a late score lies between the threshold's share and the full score |
| Scoring.UnmarshalPolicySpec | internal/deadlines/scoring.go:81-103 | decoding errors are returned; an unknown kind gives "Unknown policy <kind>"; `exp` and `linear` give the policy of that kind built from the decoded `spec` values, and a failed `spec` decode returns its error next to the zero policy of the kind; a known kind without a `spec` node panics, and only then |
| Scoring.UnmarshalPolicySpecOrZero | internal/deadlines/scoring.go:102 | the corrected decoder never panics, and a missing `spec` gives a zero-valued policy of the right kind |
| Scoring.MissingSpecPanics | internal/deadlines/scoring.go:102 | `kind: exp` without `spec` panics as written, and decodes with the correction |
| Dates.Format | internal/deadlines/deadlines.go:35-37 | the text has the `DD-MM-YYYY HH:MM` shape |
| Dates.Parse | internal/deadlines/deadlines.go:17 | whatever parses is a valid calendar date |
| Dates.ParseFormat | internal/deadlines/deadlines.go:17 | parsing the formatted text of a valid date gives the date back |
| Dates.MarshalText | internal/deadlines/deadlines.go:48-50 | the text of a valid date parses back to it |
| Dates.UnmarshalText | internal/deadlines/deadlines.go:39-46 | text without surrounding spaces is parsed as it is |
| Dates.UnmarshalTextPadded | internal/deadlines/deadlines.go:39-46 | white space on either side of a text does not change how it is read |
| Dates.UnmarshalMarshalText | internal/deadlines/deadlines.go:39-50 | the text round trip holds for every valid date |
| Dates.MarshalJSON | internal/deadlines/deadlines.go:56-66 | the JSON is the text form between double quotes |
| Dates.UnmarshalJSON | internal/deadlines/deadlines.go:52-54 | as written: the slice panics exactly on fewer than 3 bytes; otherwise the text is read without the first byte and the last two bytes |
| Dates.EmptyJSONStringPanics | internal/deadlines/deadlines.go:52-54 | the JSON empty string `""` crashes the decoder as written; the corrected one reads it as text that is no date |
| Dates.UnmarshalJSONRejectsMarshalJSON | internal/deadlines/deadlines.go:52-54 | the JSON of a valid date never decodes |
| Dates.UnmarshalJSONQuoted | internal/deadlines/deadlines.go:53 | corrected: the text between the quotes is read, and only a value shorter than the two quotes panics |
| Dates.UnmarshalJSONQuotedRoundTrip | internal/deadlines/deadlines.go:52-66 | decoding the JSON of a valid date gives the date back |
| Deadlines.ScoringGroupName | internal/deadlines/deadlines.go:123-134 | a group without a scoring group uses the default group |
| Deadlines.GroupsMap | internal/deadlines/deadlines.go:98-102 | every name maps to an index holding that name, and to the last such index |
| Deadlines.PoliciesMap | internal/deadlines/deadlines.go:93-97 | the keys are exactly the policy names, and the last policy of a name wins |
| Deadlines.GroupsMapFindsLast | internal/deadlines/deadlines.go:98-102 | the group table finds, for every name, the last scoring group of that name, and nothing for a name no group has |
| Deadlines.PoliciesMapFindsLast | internal/deadlines/deadlines.go:93-97 | the policy table finds, for every name, the policy of the last entry of that name, and nothing for a name no entry has |
| Deadlines.MaxScoresOfTotals | internal/deadlines/deadlines.go:104-114 | a group's computed maximum is the sum of the task scores of the groups that resolve to it |
| Deadlines.BuiltGroups | internal/deadlines/deadlines.go:104-118 | names, weights and policies are kept, and a maximum set in the file is kept |
| Deadlines.BuiltGroupsIdempotent | internal/deadlines/deadlines.go:92-121 | building the scoring groups twice is building them once |
| Deadlines.LaterGroupWins | internal/deadlines/deadlines.go:98-102 | of two scoring groups with one name, only the later one receives the computed maximum |
| Deadlines.WrittenIsBuilt | internal/deadlines/deadlines.go:104-118 | writing every computed maximum back gives the built groups |
| Deadlines.WriteBack | internal/deadlines/deadlines.go:116-118 | the write-back loop writes every computed maximum |
| Deadlines.FillPolicies | internal/deadlines/deadlines.go:93-97 | the policy loop builds the policy map |
| Deadlines.FillGroups | internal/deadlines/deadlines.go:98-102 | the group loop builds the group index map |
| Deadlines.SumTasks | internal/deadlines/deadlines.go:108-111 | the loop sums the task scores of a group |
| Deadlines.AnyTaskNamed | internal/deadlines/deadlines.go:149-158 | true exactly when some task of some group has that name |
| Deadlines.Deadlines.GetScoringGroup | internal/deadlines/deadlines.go:123-134 | found exactly when the group's resolved name is in the group table, and then it is the scoring group the table points to, which carries that name |
| Deadlines.Deadlines.GetScoringPolicy | internal/deadlines/deadlines.go:136-147 | none without a scoring group or a known policy name, otherwise the policy stored under the group's policy name |
| Deadlines.Deadlines.LookupFindsLast | internal/deadlines/deadlines.go:92-147 | with tables built from the scoring block, a task group's scoring group is the last one configured under its resolved name, and its policy is that of the last policy entry the group names |
| Deadlines.Deadlines.HasTask | internal/deadlines/deadlines.go:149-158 | true exactly when some task of some group has that name |
| Deadlines.Deadlines.BuildScoringGroups | internal/deadlines/deadlines.go:92-121 | never fails; fills the policy and group maps from the scoring block; replaces the groups by the built groups and keeps the assignments; the maps stay those of the built block |
| Deadlines.Deadlines.AccumulateMaxScores | internal/deadlines/deadlines.go:104-114 | the loop over the assignments computes the maxima of the specification |
| Deadlines.Deadlines.WriteMaxScores | internal/deadlines/deadlines.go:116-118 | the write-back leaves the maps and assignments alone and installs the built groups |
| Fetcher.FetchBody | internal/deadlines/fetcher.go:68-81 | succeeds exactly on a 200 reply whose body was read, and reports a bad status as "Failed to fetch deadlines: <status>" |
| Fetcher.Decode | internal/deadlines/fetcher.go:83-90 | `v2` uses the v2 decoder; every other format, including `v1`, uses the v1 decoder with the default scoring block |
| Fetcher.Prepare | internal/deadlines/fetcher.go:45-48 | a fresh, valid course definition with its scoring groups built |
| Fetcher.ParseV1 | internal/deadlines/fetcher.go:18-51 | fails exactly when the list does not decode; otherwise the tasks with the default scoring (exponential, 5 days, threshold 0.3, group and policy `default`) built |
| Fetcher.ParseV2 | internal/deadlines/fetcher.go:53-66 | fails exactly when the document does not decode; otherwise its tasks and its scoring block, built, with the policy and group tables of the decoded block |
| Fetcher.Fetch | internal/deadlines/fetcher.go:68-91 | fails exactly when the body cannot be fetched or decoded, with that error; otherwise the loaded definition, valid and with the tables of its scoring block |
| Fetcher.ResolvedIsDefaultTotal | internal/deadlines/deadlines.go:104-114 | under the default scoring, the default group's maximum is the total of the groups without a scoring group or with `default` |
| Fetcher.V1ScoringGroups | internal/deadlines/fetcher.go:36-41 | a v1 file gets a single scoring group, `default`, of weight 10, whose maximum is that total |
| Fetcher.V1ScoringPolicy | internal/deadlines/fetcher.go:25-43 | in a v1 file exactly the groups in `default` get a policy, the exponential one with threshold 0.3 |
| Fetcher.AllLoadedKeys | internal/deadlines/fetcher.go:137-149 | a successful reload has one entry per configured group name |
| Fetcher.AllLoadedFailure | internal/deadlines/fetcher.go:138-143 | a reload fails exactly when some group fails to load |
| Fetcher.AllLoadedFirstError | internal/deadlines/fetcher.go:138-143 | a failed reload reports the error of the first group that fails |
| Fetcher.NoRecovery | internal/deadlines/fetcher.go:138-143 | once a prefix of the groups fails, the whole reload fails with that error |
| Fetcher.Fetcher.LoadAll | internal/deadlines/fetcher.go:137-149 | the group loop fails exactly when some group fails, with the error of the first one; otherwise every stored definition is the loaded one of its group name, with the tables of its scoring block |
| Fetcher.Fetcher.Reload | internal/deadlines/fetcher.go:133-158 | on failure keeps the current snapshot and wraps the error with "Failed to reload deadlines"; on success installs a snapshot that holds every group's definition |
| Fetcher.Fetcher.GroupDeadlines | internal/deadlines/fetcher.go:160-167 | nothing before the first load; afterwards the snapshot's entry for the group, if any |
| Fetcher.NewFetcher | internal/deadlines/fetcher.go:100-116 | fails exactly when the first reload fails, with its error; otherwise a fetcher that has a snapshot |
| Database.UpsertPipeline | internal/database/database.go:191-196 | a new pipeline is inserted; an existing one keeps its row and gets only the new status; other rows are untouched |
| Database.UpsertPipelineIdempotent | internal/database/database.go:191-196 | reporting a pipeline twice is reporting it once |
| Database.Claim | internal/database/database.go:265-277 | succeeds exactly on an existing, unclaimed flag and sets only its login; otherwise reports the unknown flag |
| Database.ClaimedStaysClaimed | internal/database/database.go:265-277 | a claimed flag cannot be claimed again, and no already claimed flag changes |
| Database.FlagId | internal/database/database.go:254 | the id is `{FLAG-`, the task, `-`, the UUID and `}` |
| Database.PutOverride | internal/database/database.go:315-326 | as written: upserts score and status on the (login, task) key and keeps the row's deletion mark |
| Database.PutOverrideRestoring | internal/database/database.go:315-326 | corrected: the upsert also clears the deletion mark |
| Database.DeleteOverride | internal/database/database.go:328-333 | marks the (login, task) row deleted and keeps its values |
| Database.VisibleOverrides | internal/models/overrides.go:8 | a query sees exactly the rows not marked deleted |
| Database.ReAddedOverrideInvisible | internal/database/database.go:315-333 | an override that is added, removed and added again stays invisible |
| Database.RestoredOverrideVisible | internal/database/database.go:315-326 | with the correction the override just added is visible |
| Database.LinkAccount | internal/database/database.go:137-156 | succeeds exactly on a known user not yet fully linked whose account no other user holds, and changes only that user's account |
| Database.LinkedAccountFixed | internal/database/database.go:137-156 | a fully linked user cannot be relinked |
| Database.LinkKeepsReposLinked | internal/database/database.go:137-156 | linking an account keeps every user with a repository linked to both account values |
| Database.Select | internal/database/database.go:279-295 | a listing holds exactly the rows matching the condition, each once |
| Database.DataBase.AddPipeline | internal/database/database.go:191-196 | the pipeline table becomes the upsert and nothing else changes |
| Database.DataBase.CreateFlag | internal/database/database.go:252-263 | a taken id reports the duplicate key; otherwise a new unclaimed flag is stored under its id |
| Database.DataBase.SubmitFlag | internal/database/database.go:265-277 | the flag table becomes the claim, or stays as it was with the unknown-flag error |
| Database.DataBase.AddOverride | internal/database/database.go:315-326 | the override table becomes the upsert as written |
| Database.DataBase.RemoveOverride | internal/database/database.go:328-333 | the override table becomes the soft delete |
| Database.DataBase.SetUserGitlabAccount | internal/database/database.go:137-156 | the user table becomes the link, or stays as it was with its error; every user with a repository stays linked |
| Database.DataBase.ListUsersWithoutRepos | internal/database/database.go:119-126 | exactly the users with both account values and no repository, each once |
| Database.DataBase.SetUserRepository | internal/database/database.go:158-167 | an unknown user is an error and changes nothing; otherwise only that user's repository changes; a repository given to a listed user keeps every user with a repository linked |
| Database.DataBase.ListSubmittedFlags | internal/database/database.go:288-295 | exactly the claimed flags, each once |
| Database.DataBase.ListUserFlags | internal/database/database.go:279-286 | exactly the flags claimed by that login, each once |
| Database.DataBase.ListAllPipelines | internal/database/database.go:207-214 | exactly the stored pipelines, each once |
| Database.DataBase.ListProjectPipelines | internal/database/database.go:198-205 | exactly the pipelines of that project, each once |
| Database.DataBase.ListGroupUsers | internal/database/database.go:128-135 | exactly the users of the group that have a repository, each once |
| Scorer.PrettifyTitleIsCapture | internal/scorer/scorer.go:275-287 | a title of the form `<digits>-<rest>` shows `<rest>` title-cased; any other title is title-cased whole |
| Scorer.PrettifyTitleExamples | internal/scorer/scorer.go:277-287 | `1-оп` shows `Оп`, and a no-break space starts a new word: `a\u00A0b` shows `A\u00A0B` |
| Scorer.ScoreTask | internal/scorer/scorer.go:229-256 | the scored task keeps the task's name, maximum and link |
| Scorer.FlagIgnoredWithPipeline | internal/scorer/scorer.go:239-256 | once a task has a pipeline, flags do not matter |
| Scorer.ScoreTaskStatus | internal/scorer/scorer.go:229-256 | points only for success; nothing found means assigned with 0; an on-time pipeline or flag gets the full score |
| Scorer.ScoreTaskBounds | internal/scorer/scorer.go:229-256 | a task scores between 0 and its maximum |
| Scorer.ScoreGroupTotals | internal/scorer/scorer.go:225-267 | a group's maximum is the sum of its tasks' scores, and its score lies between 0 and that maximum |
| Scorer.ScoreTasksImpl | internal/scorer/scorer.go:225-258 | the task loop fills every slot with the scored task of the specification, and its two counters are the sums of the scores and of the maxima |
| Scorer.ScoreGroupImpl | internal/scorer/scorer.go:225-267 | the task loop computes the scored group of the specification |
| Scorer.ScoreUserTotals | internal/scorer/scorer.go:212-270 | the student's maximum is the course total, the score lies between 0 and it, and groups and tasks keep the course's order |
| Scorer.UserScoresFor | internal/scorer/scorer.go:201-273 | a pipelines error is wrapped first, then a flags error; otherwise the scores of that student |
| Scorer.FailureSticks | internal/scorer/scorer.go:131-136 | once one student fails, the whole scoreboard fails with that error |
| Scorer.AllUserScoresSuccess | internal/scorer/scorer.go:130-138 | a successful scoreboard holds each student's scores, in order |
| Scorer.AllUserScoresFirstFailure | internal/scorer/scorer.go:131-136 | a failed scoreboard reports the first failing student's error |
| Scorer.AllSucceedBefore | internal/scorer/scorer.go:130-138 | the scoreboard succeeds when no student fails |
| Scorer.CachedNeverFails | internal/scorer/scorer.go:150-190 | with the cached providers no student fails |
| Scorer.Scorer.CalcUserScoresImpl | internal/scorer/scorer.go:201-273 | the method computes the student's scores of the specification |
| Scorer.Scorer.CalcUserScores | internal/scorer/scorer.go:192-199 | "No deadlines found" without a snapshot; otherwise the scores from the student's project pipelines and flags |
| Scorer.Scorer.CalcScoreboard | internal/scorer/scorer.go:109-148 | "No deadlines found" without a snapshot; otherwise every group member's scores, sorted, a permutation of the per-student results, next to the snapshot's definition; every member has a login because every user with a repository is linked |
| Scorer.Scorer.RankMembers | internal/scorer/scorer.go:130-145 | the sorted standings are a permutation of the members' scores |
| Scorer.Scorer.ScoreAll | internal/scorer/scorer.go:130-138 | the loop computes the scoreboard of the specification |
| StandingsOrder.BeforeIsStrictWeakOrder | internal/scorer/scorer.go:140-145 | the standings order is a strict weak order, and two rows are tied exactly when score and full name match |
| StandingsOrder.SortStandings | internal/scorer/scorer.go:140-145 | the in-place sort leaves the array sorted and a permutation of what it held |
| StandingsOrder.SortedStandings | internal/scorer/scorer.go:140-145 | the sorted copy is sorted and a permutation of its input |
| Login.NormalizeName | internal/web/login.go:54-56 | the length is kept |
| Login.NormalizeNameShape | internal/web/login.go:54-56 | a valid name becomes capitalised parts, lower case elsewhere, with the same dashes and the same letters up to case |
| Login.NormalizedIsFixed | internal/web/login.go:54-56 | a normalised name is left unchanged |
| Login.NormalizeNameIdempotent | internal/web/login.go:54-56 | normalising twice is normalising once |
| Login.FindGroup | internal/web/login.go:82-88 | the loop finds the group the specification names |
| Login.LastMatchIsLast | internal/web/login.go:82-93 | no matching secret gives the empty name; otherwise the last group with the secret wins |
| Login.LastMatchFound | internal/web/login.go:82-88 | a found name belongs to a group with that secret |
| Login.SignupForm | internal/web/login.go:58-128 | the handler's page is the one the sign-up specification gives |
| Login.SignupSucceedsExactly | internal/web/login.go:71-127 | sign-up redirects to login exactly when both names are valid, the secret is known, the new user is added without an account and the session is saved; each check has its own message, in order |
| Login.TryGetToken | internal/web/login.go:255-266 | a token exactly for a non-empty string value |
| Login.ValidateSession | internal/web/login.go:284-314 | no token or no session goes to sign-up; a user without an account goes to login; otherwise the request proceeds |
| Login.ValidateSessionGuards | internal/web/login.go:268-314 | a request proceeds only with a stored token, its session and a linked account; a cleared session always goes to sign-up |
| Render.FlagMatchesIsPattern | internal/web/render.go:50 | the flag check accepts exactly `{FLAG-` words `-` hex words `}` |
| Render.CreatedFlagMatches | internal/database/database.go:254 | a flag made from a dashed word task and a UUID passes the submit check |
| Render.HandleFlagSubmit | internal/web/render.go:52-74 | no session goes to sign-up; a bad flag and an unknown flag each get their message and change nothing; a good flag is claimed |
| Render.InvalidFlagClaimsNothing | internal/web/render.go:61-65 | when every stored flag has the flag's shape, a malformed flag could not have been claimed anyway |
| Render.ReverseSlice | internal/web/render.go:104-106 | the array ends up reversed |
| Render.ReverseScores | internal/web/render.go:104-106 | only the group order is reversed |
| Render.ReverseScoresTwice | internal/web/render.go:104-106 | reversing twice restores the scores |
| Render.ReverseEachScores | internal/web/render.go:166-168 | every student's groups are reversed, the rest kept |
| Render.ReverseScoreboardGroups | internal/web/render.go:164-169 | as written: the standings' course definition, shared with the fetcher, has its assignments reversed in place |
| Render.SharedSnapshotFlips | internal/web/render.go:165 | a second reversal restores the order, and the first one changes any definition whose first and last groups differ |
| Render.RenderStandingsAsWritten | internal/web/render.go:181-185 | after a render the fetcher serves the group's assignments reversed |
| Render.ReverseScoreboardGroupsCopy | internal/web/render.go:164-169 | corrected: a fresh reversed copy; the fetcher's definition is left alone |
| Render.RenderStandingsCorrected | internal/web/render.go:181-185 | with the copy the fetcher keeps its order |
| Render.RenderHomeAsWritten | internal/web/render.go:130-144 | as written: an error from the scorer crashes the page |
| Render.RenderHome | internal/web/render.go:130-144 | corrected: the page never crashes and shows the error |
| Render.RenderHomeDiffersOnlyOnError | internal/web/render.go:130-144 | the two agree on every success and differ on every error |
| Render.RenderStandingsPageAsWritten | internal/web/render.go:164-194 | as written: an error from the scorer crashes the standings page; a result is reversed in place and shown |
| Render.RenderStandingsPage | internal/web/render.go:164-194 | corrected: the page never crashes, shows the error, and shows a reversed copy of a result |
| Client.Unwrap | pkg/client/notmanytask/client.go:39-41 | success exactly on an ok reply; a transport error passes through; a refused reply gets the call's message and the server's error |
| Client.LoadStandings | pkg/client/notmanytask/client.go:29-44 | success exactly on an ok reply, with its standings; a transport error as it is; otherwise "failed to fetch standings: <error>" |
| Client.LoadUsers | pkg/client/notmanytask/client.go:46-61 | success exactly on an ok reply, with its users; a transport error as it is; otherwise "failed to fetch group members: <error>" |
| Client.OverrideScore | pkg/client/notmanytask/client.go:63-84 | the request carries the token, task, login, score and status; no error exactly on an ok reply; a transport error as it is; otherwise "failed to override score: <error>" |
| Client.LoadSuccessfulSubmits | pkg/client/notmanytask/client.go:86-110 | the standings' error, or the students listed by the triple loop |
| Client.CollectUser | pkg/client/notmanytask/client.go:94-106 | one entry per solved occurrence of the task in the student's groups |
| Client.TaskHitsPositive | pkg/client/notmanytask/client.go:95-104 | a task list counts exactly when some occurrence is solved with a positive score |
| Client.GroupHitsPositive | pkg/client/notmanytask/client.go:94-106 | a student's groups count exactly when some group holds such an occurrence |
| Client.SubmitsMembers | pkg/client/notmanytask/client.go:93-107 | a student is listed exactly when their groups count |
| Client.SubmitsAppend | pkg/client/notmanytask/client.go:93-107 | the list follows the standings' order |
| Client.SubmittedExactly | pkg/client/notmanytask/client.go:86-110 | a student is listed exactly when some group of theirs holds the task solved with a positive score |
| Crashme.BytesOf | cmd/crashme/main.go:200 | the collected bytes are the bytes read, in order |
| Crashme.Stop | cmd/crashme/main.go:187-199 | reading stops at the first read that is not a plain byte |
| Crashme.SlowReadFirstLine | cmd/crashme/main.go:184-203 | the loop returns the first line of its specification |
| Crashme.LimitAgrees | cmd/crashme/main.go:221 | until the limit's bytes are delivered, the limited reader passes every read on |
| Crashme.LimitEnds | cmd/crashme/main.go:221 | once the limit's bytes are delivered, the limited reader reports the end of the input |
| Crashme.LimitShort | cmd/crashme/main.go:221 | input shorter than the limit passes through unchanged |
| Crashme.LimitedFirstLine | cmd/crashme/main.go:221 | through the 100-byte limit, a line that ends within the first 100 bytes reads as without it; a longer one gives "Too long first line" |
| Crashme.ExecutableName | cmd/crashme/main.go:226 | `ctf_` followed by the task with every `-` turned into `_`; no dash remains |
| Crashme.ExecutableNameMerges | cmd/crashme/main.go:226 | tasks that differ only in `-` against `_` reach the same executable |
| Crashme.DoFetchFlag | cmd/crashme/main.go:52-83 | the flag exactly on an ok reply; a refused reply gives "Server error: <error>" |
| Crashme.FetchFlag | cmd/crashme/main.go:85-97 | at most six calls; the first success is returned, and only after six failures is the last error returned |
| Crashme.Processed | cmd/crashme/main.go:121-135 | the accepts handled before a panic; fewer than all exactly when the run panics |
| Crashme.RunBudgetBounds | cmd/crashme/main.go:117-131 | the error budget stays between 0 and 10 |
| Crashme.FewFailuresNeverPanic | cmd/crashme/main.go:121-131 | a run with no more failed accepts than the budget never panics |
| Crashme.FailureRunPanics | cmd/crashme/main.go:121-131 | more failed accepts in a row than the budget always panic |
| Crashme.ServeAsWritten | cmd/crashme/main.go:121-135 | as written: the loop panics when the budget allows it; otherwise it starts one handler per accept, failed or not, numbered in order |
| Crashme.FailedAcceptSpawnsNilHandler | cmd/crashme/main.go:122-133 | a failed accept that does not panic starts a handler with no connection |
| Crashme.Serve | cmd/crashme/main.go:121-135 | corrected: the same budget and panics, with handlers only for accepted connections |
| Crashme.SpawnedCorrectedHasConnections | cmd/crashme/main.go:121-135 | every handler the corrected loop starts has a connection, one for each accepted connection |
| Text.TrimLeft | cmd/crashme/main.go:202 | strips exactly the leading white space |
| Text.TrimRight | cmd/crashme/main.go:202 | strips exactly the trailing white space |
| Text.TrimSpacePadded | internal/deadlines/deadlines.go:40 | white space around a text without white space at its ends is exactly what is removed |
| Text.ToTitleChar | internal/scorer/scorer.go:285-287 | ASCII characters get their upper case; only a letter becomes an ASCII capital |
| Text.TitleFrom | internal/scorer/scorer.go:285-287 | title-cases exactly the characters that follow a separator (an ASCII character other than a letter, digit or `_`, or a Unicode space), and keeps the rest |
| Text.ToLower | internal/web/login.go:55 | lower-cases the ASCII letters, the only letters the sign-up form accepts |
| Text.TrimPrefix | internal/platform/base/base_pipelines.go:50 | strips the prefix when present, and otherwise returns the string unchanged |
| Text.NatToStringValue | internal/platform/gitlab/gitlab_client.go:166 | the decimal text of a number reads back as that number |
| Text.LexLessTotal | internal/scorer/scorer.go:144 | any two distinct names are ordered one way or the other |
| Text.LexLessTransitive | internal/scorer/scorer.go:144 | the byte-wise name order is transitive |
| Text.ReversedReversed | internal/web/render.go:104-106 | reversing twice gives the sequence back |

## Left out

- Network, HTTP, YAML and JSON decoding are parameters: a `Source` of replies and decoders, a `Reply` for the API client, and `ReadResult` reads for a connection. A read that returns a byte together with an error is not modelled.
- Time is an integer number of seconds in the course's time zone. `time.ParseInLocation` is replaced by the fixed `DD-MM-YYYY HH:MM` parser `Dates.Parse`. Time zones and the other layouts are left out.
- LateScores.ExponentialLate states exactly only the on-time branch. After the deadline the score is tied to the `exp` policy by `LateScores.ExponentialLateIsPolicy`, and bounded by `LateScores.ScorePipelineBounds`, because `math.Exp` is the abstract parameter `decay`.
- Scoring.Policy.Score states the exponential curve only through its bounds, for the same reason. Floating-point rounding is not modelled: the linear curve is computed over exact reals and then truncated.
- Dates.Format states the shape of the text only for valid dates with a four-digit year. The round trip is proved under that condition only.
- Login.NormalizeName states only the length in its own contract. The shape is proved by `Login.NormalizeNameShape` for names the sign-up form accepts, because `strings.Title` on other input is not used there.
- Transliteration of Cyrillic names is a parameter `Transliterator`. Its table is not part of this model.
- The UUID of a new flag and the current time are arguments.
- SQL errors and gorm mechanics are left out: every table operation succeeds unless the source itself produces the error.
- Database methods not used by the modelled core are left out: sessions, `AddUser`, merge requests and the like. The user record that `AddUser` returns is a parameter of sign-up.
- Sessions, cookies, OAuth and template rendering are left out; a page is a datatype.
- `RenderCheaterPage` has the same nil reversal as the home page and is not modelled separately; `RenderStandingsCheaterPage` and `doRenderStandingsPage` share `Render.RenderStandingsPageAsWritten`.
- `CalcScoreboardWithFilter` and the retakes page it serves are not modelled: the filter only drops users before scoring.
- Scorer.UserScoresFor, Scorer.Scorer.CalcUserScoresImpl and Scorer.Scorer.CalcUserScores require a user with a hosting login, where the source dereferences the login and would crash without one. The home page reaches them only for a user that `Login.ValidateSessionGuards` lets proceed, which has both account values; the cheater page's lookup by login is not modelled.
- Scoring.UnmarshalPolicySpec states the zero policy of the kind next to a failed `spec` decode. A YAML decoder may have filled some fields before the error; that partial state is not modelled.
- Text.TitleFrom, and with it Scorer.PrettifyTitle: `unicode.ToTitle` is modelled by `Text.ToTitleChar` on the ASCII, Latin-1 and basic Cyrillic letters only. Letters of other scripts (Greek, Latin Extended, title-case digraphs and the like) are kept as they are, where Go would title-case them. Word boundaries are exact.
- Fetcher.ParseV2: a YAML document that is `null` sets the decoded definition to nil, and `buildScoringGroups` then dereferences it; the abstract v2 decoder returns a definition or nothing, so this crash is not modelled.
- The Gitea flag handler is identical to the GitLab one; both are `Render.HandleFlagSubmit`.
- Concurrency is left out. `atomic.Value` is a plain field, and the goroutines, the semaphore, the 60-second context and the page cache are not modelled.
- The pause between flag fetch attempts and the fetcher's reload ticker are left out.
- The accept loop runs forever; the model runs it over a finite list of accept results.
- `path.Join` cleaning of the executable path is not modelled. A task name holding `/` or `..` is not checked by the model.
- Bytes are modelled as `char`. `strings.TrimSpace` is modelled on code points: it removes the ASCII and Unicode white space, and a multi-byte space counts as one character.
- The order in which the database lists rows is unspecified. The listings are stated as sets of rows without duplicates. `Scorer.Scorer.CalcScoreboard` and `Scorer.Scorer.CalcUserScores` return the listings they used as ghost results.
- The scorer iterates over the definition's assignments. The source ranges over the dereferenced definition itself.
- The client-side wiring is not part of this model: the platform factories, the Telegram bot, the CLI commands and the fuzz tool.

## Findings

| source | as written | input that shows it | evidently intended | confidence | as-written member | corrected member |
|---|---|---|---|---|---|---|
| internal/deadlines/deadlines.go:52-54 | the JSON decoder drops the opening quote and the last two bytes, the closing quote and the last minute digit | the JSON of any valid date, e.g. `"01-02-2022 23:59"` | drop only the two quotes, so that the decoder inverts the JSON encoder | not executed | Dates.UnmarshalJSONRejectsMarshalJSON | Dates.UnmarshalJSONQuotedRoundTrip |
| internal/web/render.go:164-169 | the standings page reverses, in place, the course definition that the scorer returned uncopied from the fetcher's snapshot | any group whose first and last task groups differ; each render flips the order the fetcher serves | reverse a copy for display and leave the snapshot alone | not executed | Render.RenderStandingsAsWritten | Render.RenderStandingsCorrected |
| internal/platform/gitea/gitea_client.go:148-151 | the Gitea branch link points to the bare task name | any pipeline, e.g. task `hello` links `/src/branch/hello` | link the `submits/<task>` branch the pipeline ran on | not executed | GiteaClient.BranchURLMissesSubmitBranch | GiteaClient.MakeSubmitBranchURL |
| internal/deadlines/scoring.go:102 | a policy with kind `exp` or `linear` but no `spec` node calls a nil decode function | `kind: exp` with no `spec` | decode a zero-valued policy, or report an error | not executed | Scoring.MissingSpecPanics | Scoring.UnmarshalPolicySpecOrZero |
| internal/database/database.go:315-333 | the upsert of an override keeps the soft-delete mark, so an override that was removed can never be added back | add, remove, then add the same (login, task) override | the new override is visible again | not executed | Database.ReAddedOverrideInvisible | Database.RestoredOverrideVisible |
| internal/web/render.go:181-183 | the standings pages reverse the scoreboard before checking the scorer's error, and so dereference a nil result (also at render.go:210-211) | `?group=` naming a group with no deadlines ("No deadlines found") | check the error first and show it | not executed | Render.RenderStandingsPageAsWritten | Render.RenderStandingsPage |
| internal/deadlines/deadlines.go:53 | the slice `buf[1:len(buf)-2]` is out of range for the two-byte JSON empty string | the JSON value `""` | read the text between the two quotes | not executed | Dates.EmptyJSONStringPanics | Dates.UnmarshalJSONQuoted |
| internal/web/render.go:130-144 | the home page reverses the scores before checking the scorer's error, and so dereferences a nil result | a student whose group has no deadlines ("No deadlines found") | check the error first and show it | not executed | Render.RenderHomeAsWritten | Render.RenderHomeDiffersOnlyOnError |
| cmd/crashme/main.go:121-135 | after a failed accept that leaves budget, the loop still starts a handler, on a nil connection | a single failed accept | start a handler only for an accepted connection | not executed | Crashme.FailedAcceptSpawnsNilHandler | Crashme.SpawnedCorrectedHasConnections |
