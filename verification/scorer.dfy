/** The scorer (internal/scorer/scorer.go): a student's page is computed
    from the course definition, their best pipeline per task and their
    earliest claimed flag per task; the standings of a student group are
    every member's page, ordered. The late rule is `LateScores.ScorePipeline`
    with the floating-point decay as a parameter. */
module Scorer {
  import opened Wrappers
  import opened Text
  import opened Models
  import opened Scoring
  import D = Deadlines
  import R = Results
  import Ranking
  import Providers
  import LateScores
  import F = Fetcher
  import DB = Database
  import StandingsOrder

  const NoDeadlines := "No deadlines found"

  /** `ProjectNameFactory`: how the hosting platform names a student's
      project and links to a pipeline and to a task. */
  datatype Projects = Projects(
    projectName: User -> string,
    pipelineUrl: (User, Pipeline) -> string,
    taskUrl: string -> string)

  // ------------------------------------------------------------ titles

  /** The length of the run of ASCII digits at the front of `s`. */
  function DigitRun(s: string): (n: nat)
    ensures n <= |s|
    ensures forall i :: 0 <= i < n ==> IsDigit(s[i])
    ensures n < |s| ==> !IsDigit(s[n])
  {
    if s != [] && IsDigit(s[0]) then 1 + DigitRun(s[1..]) else 0
  }

  predicate NoNewline(s: string) {
    forall i :: 0 <= i < |s| ==> s[i] != '\n'
  }

  /** `^\d+-(.*)$` matches `title` with the digits ending at `k`: one or
      more digits, a dash at `k`, and a rest without a newline (`.` does
      not match one and `$` is the end of the text). */
  ghost predicate TitleMatch(title: string, k: int) {
    1 <= k < |title| && (forall i :: 0 <= i < k ==> IsDigit(title[i])) && title[k] == '-'
    && NoNewline(title[k + 1..])
  }

  /** `prettifyTitle`: the title-cased capture of the pattern, or the whole
      title-cased title when it does not match. */
  function PrettifyTitle(title: string): string {
    var n := DigitRun(title);
    if 1 <= n < |title| && title[n] == '-' && NoNewline(title[n + 1..]) then Title(title[n + 1..])
    else Title(title)
  }

  /** A numbered Cyrillic title loses its number and gets a capital, and a
      no-break space starts a new word. */
  lemma PrettifyTitleExamples()
    ensures PrettifyTitle("1-\U{43E}\U{43F}") == "\U{41E}\U{43F}"
    ensures PrettifyTitle("a\U{A0}b") == "A\U{A0}B"
  {
    assert DigitRun("1-\U{43E}\U{43F}") == 1;
    assert "1-\U{43E}\U{43F}"[2..] == "\U{43E}\U{43F}";
    assert DigitRun("a\U{A0}b") == 0;
  }

  /** The pattern matches in at most one way, and the pretty title is the
      title-cased capture exactly when it matches. */
  lemma PrettifyTitleIsCapture(title: string)
    ensures forall k :: TitleMatch(title, k) ==> k == DigitRun(title) && PrettifyTitle(title) == Title(title[k + 1..])
    ensures (forall k :: !TitleMatch(title, k)) ==> PrettifyTitle(title) == Title(title)
  {
    var n := DigitRun(title);
    forall k | TitleMatch(title, k)
      ensures k == n
    {
    }
    if 1 <= n < |title| && title[n] == '-' && NoNewline(title[n + 1..]) {
      assert TitleMatch(title, n);
    }
  }

  // ------------------------------------------------------------ one task

  /** The pipeline `scorePipeline` is given for a flag: a success at the
      flag's creation time. */
  function FlagPipeline(flag: Flag): Pipeline {
    Pipeline(0, "", "", StatusSuccess, flag.createdAt)
  }

  /** A task on the student's page: the best pipeline decides it when there
      is one; otherwise a claimed flag makes it solved at the flag's
      creation time; otherwise it is merely assigned with no score. */
  function ScoreTask(decay: Decay, projects: Projects, user: User, group: D.TaskGroup, task: D.Task,
                     pipelines: map<string, Pipeline>, flags: map<string, Flag>): (t: R.ScoredTask)
    ensures t.task == task.task && t.maxScore == task.score && t.taskUrl == projects.taskUrl(task.task)
  {
    var initial := R.ScoredTask(task.task, R.TaskStatusAssigned, 0, task.score, projects.taskUrl(task.task), "");
    if task.task in pipelines then
      var pipeline := pipelines[task.task];
      initial.(status := R.ClassifyPipelineStatus(pipeline.status),
                score := LateScores.ScorePipeline(decay, task, group, pipeline),
                pipelineUrl := projects.pipelineUrl(user, pipeline))
    else if task.task in flags then
      initial.(status := R.TaskStatusSuccess,
                score := LateScores.ScorePipeline(decay, task, group, FlagPipeline(flags[task.task])))
    else initial
  }

  /** A flag is never consulted when the task has a pipeline. */
  lemma FlagIgnoredWithPipeline(decay: Decay, projects: Projects, user: User, group: D.TaskGroup, task: D.Task,
                                pipelines: map<string, Pipeline>, flags1: map<string, Flag>, flags2: map<string, Flag>)
    requires task.task in pipelines
    ensures ScoreTask(decay, projects, user, group, task, pipelines, flags1)
         == ScoreTask(decay, projects, user, group, task, pipelines, flags2)
  {
  }

  /** Only a solved task scores, an untouched one is assigned with nothing,
      and a task solved before its group's deadline, by pipeline or by
      flag, gets its full score. */
  lemma ScoreTaskStatus(decay: Decay, projects: Projects, user: User, group: D.TaskGroup, task: D.Task,
                        pipelines: map<string, Pipeline>, flags: map<string, Flag>)
    ensures var t := ScoreTask(decay, projects, user, group, task, pipelines, flags);
      t.score != 0 ==> t.status == R.TaskStatusSuccess
    ensures var t := ScoreTask(decay, projects, user, group, task, pipelines, flags);
      task.task !in pipelines && task.task !in flags ==> t.status == R.TaskStatusAssigned && t.score == 0
    ensures var t := ScoreTask(decay, projects, user, group, task, pipelines, flags);
      (task.task in pipelines && pipelines[task.task].status == StatusSuccess
       && pipelines[task.task].startedAt < LateScores.DeadlineOf(group))
      ==> t.status == R.TaskStatusSuccess && t.score == task.score
    ensures var t := ScoreTask(decay, projects, user, group, task, pipelines, flags);
      task.task !in pipelines && task.task in flags && flags[task.task].createdAt < LateScores.DeadlineOf(group)
      ==> t.status == R.TaskStatusSuccess && t.score == task.score
  {
  }

  /** With a decay in [0, 1] a task scores between nothing and its maximum. */
  lemma ScoreTaskBounds(decay: Decay, projects: Projects, user: User, group: D.TaskGroup, task: D.Task,
                        pipelines: map<string, Pipeline>, flags: map<string, Flag>)
    requires task.score >= 0
    requires forall elapsed :: DecayBounded(decay, elapsed, LateScores.ExponentialScale)
    ensures var t := ScoreTask(decay, projects, user, group, task, pipelines, flags);
      0 <= t.score <= t.maxScore
  {
    var p: Pipeline;
    if task.task in pipelines {
      p := pipelines[task.task];
    } else if task.task in flags {
      p := FlagPipeline(flags[task.task]);
    } else {
      return;
    }
    if p.status == StatusSuccess && p.startedAt >= LateScores.DeadlineOf(group) {
      LateScores.ScorePipelineBounds(decay, task, group, p);
      assert 0.0 <= task.score as real * LateScores.ExponentialThreshold;
    }
  }

  // ------------------------------------------------------------ sums

  /** The sum of `f` over `xs`, added in order as the source's loops do. */
  function Sum<T>(xs: seq<T>, f: T -> int): int {
    if xs == [] then 0 else Sum(xs[..|xs| - 1], f) + f(xs[|xs| - 1])
  }

  lemma SumAppend<T>(xs: seq<T>, x: T, f: T -> int)
    ensures Sum(xs + [x], f) == Sum(xs, f) + f(x)
  {
    assert (xs + [x])[..|xs|] == xs;
  }

  /** A sum of terms each between 0 and a second term is between 0 and the
      second sum. */
  lemma {:induction false} SumBounds<T>(xs: seq<T>, f: T -> int, g: T -> int)
    requires forall i :: 0 <= i < |xs| ==> 0 <= f(xs[i]) <= g(xs[i])
    ensures 0 <= Sum(xs, f) <= Sum(xs, g)
    decreases |xs|
  {
    if xs != [] {
      var init := xs[..|xs| - 1];
      assert forall i :: 0 <= i < |init| ==> init[i] == xs[i];
      SumBounds(init, f, g);
    }
  }

  function TaskScore(t: R.ScoredTask): int { t.score }
  function TaskMaxScore(t: R.ScoredTask): int { t.maxScore }
  function GroupScore(g: R.ScoredTaskGroup): int { g.score }
  function GroupMaxScore(g: R.ScoredTaskGroup): int { g.maxScore }

  /** Scored tasks whose maxima are the tasks' scores sum to the group's total. */
  lemma {:induction false} MaxScoresSumToTotal(ts: seq<R.ScoredTask>, tasks: seq<D.Task>)
    requires |ts| == |tasks| && forall i :: 0 <= i < |ts| ==> ts[i].maxScore == tasks[i].score
    ensures Sum(ts, TaskMaxScore) == D.TaskTotal(tasks)
    decreases |ts|
  {
    if ts != [] {
      var n := |ts| - 1;
      MaxScoresSumToTotal(ts[..n], tasks[..n]);
    }
  }

  // ------------------------------------------------------------ one group

  function ScoreTasks(decay: Decay, projects: Projects, user: User, group: D.TaskGroup,
                      pipelines: map<string, Pipeline>, flags: map<string, Flag>): seq<R.ScoredTask> {
    seq(|group.tasks|, i requires 0 <= i < |group.tasks| =>
      ScoreTask(decay, projects, user, group, group.tasks[i], pipelines, flags))
  }

  /** A group on the student's page: its tasks in the definition's order,
      the sum of their scores and the sum of their maxima. */
  function ScoreGroup(decay: Decay, projects: Projects, user: User, group: D.TaskGroup,
                      pipelines: map<string, Pipeline>, flags: map<string, Flag>): R.ScoredTaskGroup {
    var tasks := ScoreTasks(decay, projects, user, group, pipelines, flags);
    R.ScoredTaskGroup(group.group, PrettifyTitle(group.group), group.deadline, tasks,
                      Sum(tasks, TaskScore), Sum(tasks, TaskMaxScore))
  }

  /** A group's maximum is the sum of its task scores, whoever the student;
      with a decay in [0, 1] and no negative task its score lies between 0
      and that maximum. */
  lemma ScoreGroupTotals(decay: Decay, projects: Projects, user: User, group: D.TaskGroup,
                         pipelines: map<string, Pipeline>, flags: map<string, Flag>)
    ensures ScoreGroup(decay, projects, user, group, pipelines, flags).maxScore == D.TaskTotal(group.tasks)
    ensures (forall t :: t in group.tasks ==> t.score >= 0)
      && (forall elapsed :: DecayBounded(decay, elapsed, LateScores.ExponentialScale))
      ==> 0 <= ScoreGroup(decay, projects, user, group, pipelines, flags).score
            <= ScoreGroup(decay, projects, user, group, pipelines, flags).maxScore
  {
    var tasks := ScoreTasks(decay, projects, user, group, pipelines, flags);
    MaxScoresSumToTotal(tasks, group.tasks);
    if (forall t :: t in group.tasks ==> t.score >= 0)
      && (forall elapsed :: DecayBounded(decay, elapsed, LateScores.ExponentialScale)) {
      forall i | 0 <= i < |tasks|
        ensures 0 <= TaskScore(tasks[i]) <= TaskMaxScore(tasks[i])
      {
        ScoreTaskBounds(decay, projects, user, group, group.tasks[i], pipelines, flags);
      }
      SumBounds(tasks, TaskScore, TaskMaxScore);
    }
  }

  /** The body of the inner loop of `calcUserScoresImpl`: the slot is
      filled in place, first as assigned, then from the pipeline or the flag. */
  method FillTask(tasks: array<R.ScoredTask>, i: nat, decay: Decay, projects: Projects, user: User, group: D.TaskGroup,
                  pipelines: map<string, Pipeline>, flags: map<string, Flag>)
    requires i < tasks.Length == |group.tasks|
    modifies tasks
    ensures tasks[..] == old(tasks[..])[i := ScoreTask(decay, projects, user, group, group.tasks[i], pipelines, flags)]
  {
    var task := group.tasks[i];
    tasks[i] := R.ScoredTask(task.task, R.TaskStatusAssigned, 0, task.score, projects.taskUrl(task.task), "");
    if task.task in pipelines {
      var pipeline := pipelines[task.task];
      tasks[i] := tasks[i].(status := R.ClassifyPipelineStatus(pipeline.status),
                            score := LateScores.ScorePipeline(decay, task, group, pipeline),
                            pipelineUrl := projects.pipelineUrl(user, pipeline));
    } else if task.task in flags {
      var flag := flags[task.task];
      tasks[i] := tasks[i].(status := R.TaskStatusSuccess,
                            score := LateScores.ScorePipeline(decay, task, group, FlagPipeline(flag)));
    }
  }

  /** The inner loop of `calcUserScoresImpl`: the task slice is filled slot
      by slot while the group's score and maximum are summed. */
  method ScoreTasksImpl(decay: Decay, projects: Projects, user: User, group: D.TaskGroup,
                        pipelines: map<string, Pipeline>, flags: map<string, Flag>)
    returns (scored: seq<R.ScoredTask>, totalScore: int, maxTotalScore: int)
    ensures scored == ScoreTasks(decay, projects, user, group, pipelines, flags)
    ensures totalScore == Sum(scored, TaskScore) && maxTotalScore == Sum(scored, TaskMaxScore)
  {
    var tasks := new R.ScoredTask[|group.tasks|];
    totalScore, maxTotalScore := 0, 0;
    for i := 0 to |group.tasks|
      invariant forall j :: 0 <= j < i ==> tasks[j] == ScoreTask(decay, projects, user, group, group.tasks[j], pipelines, flags)
      invariant totalScore == Sum(tasks[..i], TaskScore) && maxTotalScore == Sum(tasks[..i], TaskMaxScore)
    {
      ghost var before := tasks[..i];
      ghost var slots := tasks[..];
      FillTask(tasks, i, decay, projects, user, group, pipelines, flags);
      var t := tasks[i];
      assert forall j :: 0 <= j < i ==> tasks[j] == slots[j];
      assert t == ScoreTask(decay, projects, user, group, group.tasks[i], pipelines, flags);
      assert tasks[..i + 1] == before + [t];
      SumAppend(before, t, TaskScore);
      SumAppend(before, t, TaskMaxScore);
      assert TaskScore(t) == t.score && TaskMaxScore(t) == t.maxScore;
      maxTotalScore := maxTotalScore + t.maxScore;
      totalScore := totalScore + t.score;
    }
    scored := tasks[..];
    assert scored == tasks[..|group.tasks|];
  }

  /** One group of `calcUserScoresImpl`: the scored tasks with their sums. */
  method ScoreGroupImpl(decay: Decay, projects: Projects, user: User, group: D.TaskGroup,
                        pipelines: map<string, Pipeline>, flags: map<string, Flag>) returns (g: R.ScoredTaskGroup)
    ensures g == ScoreGroup(decay, projects, user, group, pipelines, flags)
  {
    var tasks, totalScore, maxTotalScore := ScoreTasksImpl(decay, projects, user, group, pipelines, flags);
    g := R.ScoredTaskGroup(group.group, PrettifyTitle(group.group), group.deadline, tasks, totalScore, maxTotalScore);
  }

  // ------------------------------------------------------------ one student

  /** The student as the standings show them. */
  function ScoredUser(projects: Projects, user: User): R.User
    requires user.gitlabLogin.Some?
  {
    R.User(user.firstName, user.lastName, user.gitlabLogin.value, projects.projectName(user))
  }

  function ScoreGroups(decay: Decay, projects: Projects, assignments: seq<D.TaskGroup>, user: User,
                       pipelines: map<string, Pipeline>, flags: map<string, Flag>): seq<R.ScoredTaskGroup> {
    seq(|assignments|, i requires 0 <= i < |assignments| =>
      ScoreGroup(decay, projects, user, assignments[i], pipelines, flags))
  }

  lemma ScoreGroupsStep(decay: Decay, projects: Projects, assignments: seq<D.TaskGroup>, user: User,
                        pipelines: map<string, Pipeline>, flags: map<string, Flag>, i: nat)
    requires i < |assignments|
    ensures ScoreGroups(decay, projects, assignments[..i + 1], user, pipelines, flags)
         == ScoreGroups(decay, projects, assignments[..i], user, pipelines, flags)
            + [ScoreGroup(decay, projects, user, assignments[i], pipelines, flags)]
  {
    var longer := ScoreGroups(decay, projects, assignments[..i + 1], user, pipelines, flags);
    var shorter := ScoreGroups(decay, projects, assignments[..i], user, pipelines, flags);
    forall k | 0 <= k < i
      ensures longer[k] == shorter[k]
    {
      assert assignments[..i + 1][k] == assignments[..i][k];
    }
  }

  /** A student's page from their best pipelines and earliest flags. */
  function ScoreUser(decay: Decay, projects: Projects, assignments: seq<D.TaskGroup>, user: User,
                     pipelines: map<string, Pipeline>, flags: map<string, Flag>): R.UserScores
    requires user.gitlabLogin.Some?
  {
    var groups := ScoreGroups(decay, projects, assignments, user, pipelines, flags);
    R.UserScores(groups, Sum(groups, GroupScore), Sum(groups, GroupMaxScore), ScoredUser(projects, user))
  }

  /** The sum of the task scores of the whole course. */
  function CourseTotal(assignments: seq<D.TaskGroup>): int {
    if assignments == [] then 0
    else CourseTotal(assignments[..|assignments| - 1]) + D.TaskTotal(assignments[|assignments| - 1].tasks)
  }

  lemma {:induction false} GroupMaximaSumToCourseTotal(gs: seq<R.ScoredTaskGroup>, assignments: seq<D.TaskGroup>)
    requires |gs| == |assignments| && forall i :: 0 <= i < |gs| ==> gs[i].maxScore == D.TaskTotal(assignments[i].tasks)
    ensures Sum(gs, GroupMaxScore) == CourseTotal(assignments)
    decreases |gs|
  {
    if gs != [] {
      var n := |gs| - 1;
      GroupMaximaSumToCourseTotal(gs[..n], assignments[..n]);
    }
  }

  /** Every student's maximum is the course total, whatever they submitted;
      with a decay in [0, 1] and no negative task their score lies between
      0 and it. Groups and tasks follow the course definition's order. */
  lemma ScoreUserTotals(decay: Decay, projects: Projects, assignments: seq<D.TaskGroup>, user: User,
                        pipelines: map<string, Pipeline>, flags: map<string, Flag>)
    requires user.gitlabLogin.Some?
    ensures ScoreUser(decay, projects, assignments, user, pipelines, flags).maxScore == CourseTotal(assignments)
    ensures (forall g, t :: g in assignments && t in g.tasks ==> t.score >= 0)
      && (forall elapsed :: DecayBounded(decay, elapsed, LateScores.ExponentialScale))
      ==> 0 <= ScoreUser(decay, projects, assignments, user, pipelines, flags).score <= CourseTotal(assignments)
    ensures var s := ScoreUser(decay, projects, assignments, user, pipelines, flags);
      |s.groups| == |assignments| && forall i :: 0 <= i < |assignments| ==>
        s.groups[i].title == assignments[i].group && s.groups[i].deadline == assignments[i].deadline
        && |s.groups[i].tasks| == |assignments[i].tasks|
        && forall j :: 0 <= j < |assignments[i].tasks| ==> s.groups[i].tasks[j].task == assignments[i].tasks[j].task
  {
    var groups := ScoreGroups(decay, projects, assignments, user, pipelines, flags);
    GroupMaxima(decay, projects, assignments, user, pipelines, flags);
    if (forall g, t :: g in assignments && t in g.tasks ==> t.score >= 0)
      && (forall elapsed :: DecayBounded(decay, elapsed, LateScores.ExponentialScale)) {
      GroupScoresBounded(decay, projects, assignments, user, pipelines, flags);
    }
    ScoreUserShape(decay, projects, assignments, user, pipelines, flags);
  }

  lemma GroupMaxima(decay: Decay, projects: Projects, assignments: seq<D.TaskGroup>, user: User,
                    pipelines: map<string, Pipeline>, flags: map<string, Flag>)
    ensures Sum(ScoreGroups(decay, projects, assignments, user, pipelines, flags), GroupMaxScore) == CourseTotal(assignments)
  {
    var groups := ScoreGroups(decay, projects, assignments, user, pipelines, flags);
    forall i | 0 <= i < |groups|
      ensures groups[i].maxScore == D.TaskTotal(assignments[i].tasks)
    {
      ScoreGroupTotals(decay, projects, user, assignments[i], pipelines, flags);
    }
    GroupMaximaSumToCourseTotal(groups, assignments);
  }

  lemma GroupScoresBounded(decay: Decay, projects: Projects, assignments: seq<D.TaskGroup>, user: User,
                           pipelines: map<string, Pipeline>, flags: map<string, Flag>)
    requires forall g, t :: g in assignments && t in g.tasks ==> t.score >= 0
    requires forall elapsed :: DecayBounded(decay, elapsed, LateScores.ExponentialScale)
    ensures var groups := ScoreGroups(decay, projects, assignments, user, pipelines, flags);
      0 <= Sum(groups, GroupScore) <= Sum(groups, GroupMaxScore)
  {
    var groups := ScoreGroups(decay, projects, assignments, user, pipelines, flags);
    forall i | 0 <= i < |groups|
      ensures 0 <= GroupScore(groups[i]) <= GroupMaxScore(groups[i])
    {
      ScoreGroupTotals(decay, projects, user, assignments[i], pipelines, flags);
    }
    SumBounds(groups, GroupScore, GroupMaxScore);
  }

  lemma ScoreUserShape(decay: Decay, projects: Projects, assignments: seq<D.TaskGroup>, user: User,
                       pipelines: map<string, Pipeline>, flags: map<string, Flag>)
    ensures var groups := ScoreGroups(decay, projects, assignments, user, pipelines, flags);
      |groups| == |assignments| && forall i :: 0 <= i < |assignments| ==>
        groups[i].title == assignments[i].group && groups[i].deadline == assignments[i].deadline
        && |groups[i].tasks| == |assignments[i].tasks|
        && forall j :: 0 <= j < |assignments[i].tasks| ==> groups[i].tasks[j].task == assignments[i].tasks[j].task
  {
  }

  /** `calcUserScoresImpl` on the providers' answers: their errors are
      wrapped and returned, pipelines first. */
  function UserScoresFor(decay: Decay, projects: Projects, assignments: seq<D.TaskGroup>, user: User,
                         pipelines: Result<seq<Pipeline>>, flags: Result<seq<Flag>>): (r: Result<R.UserScores>)
    requires user.gitlabLogin.Some?
    ensures pipelines.Failure? ==> r == Failure("Failed to list use rpipelines: " + pipelines.error)
    ensures pipelines.Success? && flags.Failure? ==> r == Failure("Failed to list user flags: " + flags.error)
    ensures pipelines.Success? && flags.Success? ==> r.Success? && r.value.user == ScoredUser(projects, user)
  {
    if pipelines.Failure? then Failure("Failed to list use rpipelines: " + pipelines.error)
    else if flags.Failure? then Failure("Failed to list user flags: " + flags.error)
    else Success(ScoreUser(decay, projects, assignments, user,
                           Ranking.BestPerTask(pipelines.value, Ranking.PipelineTask, Ranking.PipelineLess),
                           Ranking.BestPerTask(flags.value, Ranking.FlagTask, Ranking.FlagLess)))
  }

  // ------------------------------------------------------------ every student

  predicate LoginsKnown(users: seq<User>) {
    forall i :: 0 <= i < |users| ==> users[i].gitlabLogin.Some?
  }

  /** The loop of `CalcScoreboard` as data: every student's page in order,
      or the first error. */
  function AllUserScores(decay: Decay, projects: Projects, assignments: seq<D.TaskGroup>, users: seq<User>,
                         pipelinesP: string -> Result<seq<Pipeline>>, flagsP: string -> Result<seq<Flag>>): Result<seq<R.UserScores>>
    requires LoginsKnown(users)
  {
    if users == [] then Success([])
    else
      var n := |users| - 1;
      var init := AllUserScores(decay, projects, assignments, users[..n], pipelinesP, flagsP);
      var u := users[n];
      var last := UserScoresFor(decay, projects, assignments, u, pipelinesP(projects.projectName(u)), flagsP(u.gitlabLogin.value));
      if init.Failure? then init
      else if last.Failure? then Failure(last.error)
      else Success(init.value + [last.value])
  }

  ghost predicate UserFails(decay: Decay, projects: Projects, assignments: seq<D.TaskGroup>, users: seq<User>,
                            pipelinesP: string -> Result<seq<Pipeline>>, flagsP: string -> Result<seq<Flag>>, i: int)
    requires LoginsKnown(users)
  {
    0 <= i < |users|
    && UserScoresFor(decay, projects, assignments, users[i], pipelinesP(projects.projectName(users[i])),
                     flagsP(users[i].gitlabLogin.value)).Failure?
  }

  /** Once a prefix of the listing fails, the whole listing fails with
      the same error. */
  lemma {:induction false} FailureSticks(decay: Decay, projects: Projects, assignments: seq<D.TaskGroup>, users: seq<User>,
                                         pipelinesP: string -> Result<seq<Pipeline>>, flagsP: string -> Result<seq<Flag>>, k: nat)
    requires LoginsKnown(users) && k <= |users|
    requires AllUserScores(decay, projects, assignments, users[..k], pipelinesP, flagsP).Failure?
    ensures AllUserScores(decay, projects, assignments, users, pipelinesP, flagsP)
         == AllUserScores(decay, projects, assignments, users[..k], pipelinesP, flagsP)
    decreases |users|
  {
    if k < |users| {
      var n := |users| - 1;
      var init := users[..n];
      assert init[..k] == users[..k];
      FailureSticks(decay, projects, assignments, init, pipelinesP, flagsP, k);
      FailureStep(decay, projects, assignments, users, init, pipelinesP, flagsP);
    } else {
      assert users[..k] == users;
    }
  }

  lemma FailureStep(decay: Decay, projects: Projects, assignments: seq<D.TaskGroup>, users: seq<User>, init: seq<User>,
                     pipelinesP: string -> Result<seq<Pipeline>>, flagsP: string -> Result<seq<Flag>>)
    requires LoginsKnown(users) && users != [] && init == users[..|users| - 1] && LoginsKnown(init)
    requires AllUserScores(decay, projects, assignments, init, pipelinesP, flagsP).Failure?
    ensures AllUserScores(decay, projects, assignments, users, pipelinesP, flagsP)
         == AllUserScores(decay, projects, assignments, init, pipelinesP, flagsP)
  {
  }

  /** When the standings do not abort they hold every student's page in
      the listing's order. */
  lemma {:induction false} AllUserScoresSuccess(decay: Decay, projects: Projects, assignments: seq<D.TaskGroup>, users: seq<User>,
                                                pipelinesP: string -> Result<seq<Pipeline>>, flagsP: string -> Result<seq<Flag>>)
    requires LoginsKnown(users)
    ensures var r := AllUserScores(decay, projects, assignments, users, pipelinesP, flagsP);
      r.Success? ==> |r.value| == |users| && forall i :: 0 <= i < |users| ==>
        Success(r.value[i]) == UserScoresFor(decay, projects, assignments, users[i],
                                             pipelinesP(projects.projectName(users[i])), flagsP(users[i].gitlabLogin.value))
    decreases |users|
  {
    if users != [] {
      var n := |users| - 1;
      var init, u := users[..n], users[n];
      assert forall i :: 0 <= i < n ==> init[i] == users[i];
      AllUserScoresSuccess(decay, projects, assignments, init, pipelinesP, flagsP);
      var r := AllUserScores(decay, projects, assignments, users, pipelinesP, flagsP);
      var front := AllUserScores(decay, projects, assignments, init, pipelinesP, flagsP);
      var last := UserScoresFor(decay, projects, assignments, u, pipelinesP(projects.projectName(u)), flagsP(u.gitlabLogin.value));
      if r.Success? {
        assert front.Success? && last.Success? && r.value == front.value + [last.value];
        forall i | 0 <= i < |users|
          ensures Success(r.value[i]) == UserScoresFor(decay, projects, assignments, users[i],
                                                       pipelinesP(projects.projectName(users[i])), flagsP(users[i].gitlabLogin.value))
        {
          if i < n {
            assert r.value[i] == front.value[i];
          } else {
            assert i == n && r.value[i] == last.value;
          }
        }
      }
    }
  }

  /** The standings abort with the error of the first student whose page
      fails. */
  lemma AllUserScoresFirstFailure(decay: Decay, projects: Projects, assignments: seq<D.TaskGroup>, users: seq<User>,
                                  pipelinesP: string -> Result<seq<Pipeline>>, flagsP: string -> Result<seq<Flag>>, i: int)
    requires LoginsKnown(users)
    requires UserFails(decay, projects, assignments, users, pipelinesP, flagsP, i)
    requires forall j :: 0 <= j < i ==> !UserFails(decay, projects, assignments, users, pipelinesP, flagsP, j)
    ensures AllUserScores(decay, projects, assignments, users, pipelinesP, flagsP)
         == Failure(UserScoresFor(decay, projects, assignments, users[i], pipelinesP(projects.projectName(users[i])),
                                  flagsP(users[i].gitlabLogin.value)).error)
  {
    var prefix := users[..i];
    forall j | 0 <= j < |prefix|
      ensures !UserFails(decay, projects, assignments, prefix, pipelinesP, flagsP, j)
    {
      assert prefix[j] == users[j];
      assert !UserFails(decay, projects, assignments, users, pipelinesP, flagsP, j);
    }
    AllSucceedBefore(decay, projects, assignments, prefix, pipelinesP, flagsP);
    assert users[..i + 1][..i] == prefix;
    FailureSticks(decay, projects, assignments, users, pipelinesP, flagsP, i + 1);
  }

  /** A listing none of whose students fails does not fail. */
  lemma {:induction false} AllSucceedBefore(decay: Decay, projects: Projects, assignments: seq<D.TaskGroup>, users: seq<User>,
                                            pipelinesP: string -> Result<seq<Pipeline>>, flagsP: string -> Result<seq<Flag>>)
    requires LoginsKnown(users)
    ensures (forall j :: 0 <= j < |users| ==> !UserFails(decay, projects, assignments, users, pipelinesP, flagsP, j))
      ==> AllUserScores(decay, projects, assignments, users, pipelinesP, flagsP).Success?
    decreases |users|
  {
    if users != [] {
      var n := |users| - 1;
      var init := users[..n];
      AllSucceedBefore(decay, projects, assignments, init, pipelinesP, flagsP);
      if forall j :: 0 <= j < |users| ==> !UserFails(decay, projects, assignments, users, pipelinesP, flagsP, j) {
        forall j | 0 <= j < n
          ensures !UserFails(decay, projects, assignments, init, pipelinesP, flagsP, j)
        {
          assert init[j] == users[j];
          assert !UserFails(decay, projects, assignments, users, pipelinesP, flagsP, j);
        }
        assert !UserFails(decay, projects, assignments, users, pipelinesP, flagsP, n);
      }
    }
  }

  // ------------------------------------------------------------ cached providers

  /** Every student's page when the providers are the cached listings of
      all pipelines and all claimed flags. */
  function CachedScores(decay: Decay, projects: Projects, assignments: seq<D.TaskGroup>, users: seq<User>,
                        all: seq<Pipeline>, claimed: seq<Flag>): seq<R.UserScores>
    requires LoginsKnown(users)
  {
    seq(|users|, i requires 0 <= i < |users| =>
      ScoreUser(decay, projects, assignments, users[i],
                Ranking.BestPerTask(Providers.Bucket(all, Providers.PipelineProject, projects.projectName(users[i])),
                                    Ranking.PipelineTask, Ranking.PipelineLess),
                Ranking.BestPerTask(Providers.Bucket(claimed, Providers.FlagClaimer, users[i].gitlabLogin.value),
                                    Ranking.FlagTask, Ranking.FlagLess)))
  }

  /** Cached providers never fail, so the standings hold every student's
      page computed from their buckets. */
  lemma CachedNeverFails(decay: Decay, projects: Projects, assignments: seq<D.TaskGroup>, users: seq<User>,
                         pipelinesP: string -> Result<seq<Pipeline>>, flagsP: string -> Result<seq<Flag>>,
                         all: seq<Pipeline>, claimed: seq<Flag>)
    requires LoginsKnown(users)
    requires forall project :: pipelinesP(project) == Success(Providers.Bucket(all, Providers.PipelineProject, project))
    requires forall login :: flagsP(login) == Success(Providers.Bucket(claimed, Providers.FlagClaimer, login))
    ensures AllUserScores(decay, projects, assignments, users, pipelinesP, flagsP)
         == Success(CachedScores(decay, projects, assignments, users, all, claimed))
  {
    forall j | 0 <= j < |users|
      ensures !UserFails(decay, projects, assignments, users, pipelinesP, flagsP, j)
    {
      assert pipelinesP(projects.projectName(users[j])).Success?;
      assert flagsP(users[j].gitlabLogin.value).Success?;
    }
    AllSucceedBefore(decay, projects, assignments, users, pipelinesP, flagsP);
    AllUserScoresSuccess(decay, projects, assignments, users, pipelinesP, flagsP);
    var r := AllUserScores(decay, projects, assignments, users, pipelinesP, flagsP).value;
    var c := CachedScores(decay, projects, assignments, users, all, claimed);
    forall i | 0 <= i < |users|
      ensures r[i] == c[i]
    {
      assert pipelinesP(projects.projectName(users[i])) == Success(Providers.Bucket(all, Providers.PipelineProject, projects.projectName(users[i])));
      assert flagsP(users[i].gitlabLogin.value) == Success(Providers.Bucket(claimed, Providers.FlagClaimer, users[i].gitlabLogin.value));
    }
    assert |r| == |c|;
    assert r == c;
  }

  // ------------------------------------------------------------ the scorer

  class Scorer {
    const deadlines: F.Fetcher
    const db: DB.DataBase
    const projects: Projects
    const decay: Decay

    /** `NewScorer`. */
    constructor (db: DB.DataBase, deadlines: F.Fetcher, projects: Projects, decay: Decay)
      ensures this.db == db && this.deadlines == deadlines && this.projects == projects && this.decay == decay
    {
      this.db := db;
      this.deadlines := deadlines;
      this.projects := projects;
      this.decay := decay;
    }

    /** `calcUserScoresImpl`: the student's best pipelines and earliest
        flags, then every group of the definition through the task loop. */
    method CalcUserScoresImpl(dl: D.Deadlines, user: User, pipelinesP: string -> Result<seq<Pipeline>>,
                              flagsP: string -> Result<seq<Flag>>) returns (r: Result<R.UserScores>)
      requires user.gitlabLogin.Some?
      ensures r == UserScoresFor(decay, projects, dl.assignments, user,
                                 pipelinesP(projects.projectName(user)), flagsP(user.gitlabLogin.value))
    {
      var pipelines := Ranking.LoadUserPipelines(pipelinesP, projects.projectName(user));
      if pipelines.Failure? {
        return Failure(pipelines.error);
      }
      var flags := Ranking.LoadUserFlags(flagsP, user.gitlabLogin.value);
      if flags.Failure? {
        return Failure(flags.error);
      }
      var assignments := dl.assignments;
      var best, earliest := pipelines.value, flags.value;
      var groups: seq<R.ScoredTaskGroup> := [];
      var score := 0;
      var maxScore := 0;
      for i := 0 to |assignments|
        invariant groups == ScoreGroups(decay, projects, assignments[..i], user, best, earliest)
        invariant score == Sum(groups, GroupScore) && maxScore == Sum(groups, GroupMaxScore)
      {
        var group := ScoreGroupImpl(decay, projects, user, assignments[i], best, earliest);
        SumAppend(groups, group, GroupScore);
        SumAppend(groups, group, GroupMaxScore);
        ScoreGroupsStep(decay, projects, assignments, user, best, earliest, i);
        groups := groups + [group];
        score := score + group.score;
        maxScore := maxScore + group.maxScore;
      }
      assert assignments[..|assignments|] == assignments;
      return Success(R.UserScores(groups, score, maxScore, ScoredUser(projects, user)));
    }

    /** `CalcUserScores`: the student's group must have a definition; their
        pipelines and flags come straight from the database. */
    method CalcUserScores(user: User) returns (r: Result<R.UserScores>, ghost ps: seq<Pipeline>, ghost fs: seq<Flag>)
      requires db.Valid() && user.gitlabLogin.Some?
      ensures deadlines.GroupDeadlines(user.groupName).None? ==> r == Failure(NoDeadlines)
      ensures deadlines.GroupDeadlines(user.groupName).Some? ==>
        (forall p :: p in ps <==> p in db.pipelines.Values && p.project == projects.projectName(user))
        && (forall f :: f in fs <==> f in db.flags.Values && f.login == user.gitlabLogin)
        && r == UserScoresFor(decay, projects, deadlines.GroupDeadlines(user.groupName).value.assignments, user,
                              Success(ps), Success(fs))
    {
      var current := deadlines.GroupDeadlines(user.groupName);
      if current.None? {
        return Failure(NoDeadlines), [], [];
      }
      var pipelines := db.ListProjectPipelines(projects.projectName(user));
      var flags := db.ListUserFlags(user.gitlabLogin.value);
      ps, fs := pipelines, flags;
      r := CalcUserScoresImpl(current.value, user, _ => Success(pipelines), _ => Success(flags));
    }

    /** The students of a group whose pages enter the standings. */
    ghost predicate GroupMember(groupName: string, u: User)
      reads db
    {
      u in db.users.Values && u.repository.Some? && u.groupName == groupName
    }

    /** `CalcScoreboard`: no definition gives "No deadlines found";
        otherwise every member's page from the cached providers, sorted by
        score descending and full name ascending. */
    method CalcScoreboard(groupName: string)
      returns (r: Result<R.Standings>, ghost users: seq<User>, ghost all: seq<Pipeline>, ghost claimed: seq<Flag>)
      requires db.Valid()
      requires DB.ReposLinked(db.users)
      ensures deadlines.GroupDeadlines(groupName).None? ==> r == Failure(NoDeadlines)
      ensures deadlines.GroupDeadlines(groupName).Some? ==>
        (forall u :: u in users <==> GroupMember(groupName, u))
        && (forall p :: p in all <==> p in db.pipelines.Values)
        && (forall f :: f in claimed <==> f in db.flags.Values && f.login.Some?)
      ensures deadlines.GroupDeadlines(groupName).Some? ==>
        LoginsKnown(users) && r.Success? && r.value.deadlines == deadlines.GroupDeadlines(groupName).value
        && StandingsOrder.Sorted(r.value.users)
        && multiset(r.value.users) == multiset(CachedScores(decay, projects, r.value.deadlines.assignments, users, all, claimed))
    {
      var current := deadlines.GroupDeadlines(groupName);
      if current.None? {
        return Failure(NoDeadlines), [], [], [];
      }
      var members := db.ListGroupUsers(groupName);
      var pipelines := db.ListAllPipelines();
      var flags := db.ListSubmittedFlags();
      users, all, claimed := members, pipelines, flags;
      assert LoginsKnown(members) by {
        forall i | 0 <= i < |members|
          ensures members[i].gitlabLogin.Some?
        {
          assert GroupMember(groupName, members[i]);
          var k :| k in db.users && db.users[k] == members[i];
        }
      }
      var sorted := RankMembers(current.value, members, pipelines, flags);
      r := Success(R.Standings(current.value, sorted));
    }

    /** The rest of `CalcScoreboard` once the listings are read: the cached
        providers, every member's page, and the sort. */
    method RankMembers(dl: D.Deadlines, members: seq<User>, all: seq<Pipeline>, claimed: seq<Flag>)
      returns (sorted: seq<R.UserScores>)
      requires LoginsKnown(members)
      requires forall f :: f in claimed ==> f.login.Some?
      ensures StandingsOrder.Sorted(sorted)
      ensures multiset(sorted) == multiset(CachedScores(decay, projects, dl.assignments, members, all, claimed))
    {
      var pipelinesP := Providers.MakeCachedPipelinesProvider(all);
      var flagsP := Providers.MakeCachedFlagsProvider(claimed);
      var scores := ScoreAll(dl, members, pipelinesP, flagsP);
      CachedNeverFails(decay, projects, dl.assignments, members, pipelinesP, flagsP, all, claimed);
      sorted := StandingsOrder.SortedStandings(scores.value);
    }

    /** The loop of `CalcScoreboard`: the per-student slice is filled in
        place, and the first error aborts. */
    method ScoreAll(dl: D.Deadlines, users: seq<User>, pipelinesP: string -> Result<seq<Pipeline>>,
                    flagsP: string -> Result<seq<Flag>>) returns (r: Result<seq<R.UserScores>>)
      requires LoginsKnown(users)
      ensures r == AllUserScores(decay, projects, dl.assignments, users, pipelinesP, flagsP)
    {
      var scores := new R.UserScores[|users|];
      for i := 0 to |users|
        invariant AllUserScores(decay, projects, dl.assignments, users[..i], pipelinesP, flagsP) == Success(scores[..i])
      {
        assert users[..i + 1][..i] == users[..i];
        var userScores := CalcUserScoresImpl(dl, users[i], pipelinesP, flagsP);
        if userScores.Failure? {
          FailureSticks(decay, projects, dl.assignments, users, pipelinesP, flagsP, i + 1);
          return Failure(userScores.error);
        }
        scores[i] := userScores.value;
        assert scores[..i + 1] == scores[..i] + [scores[i]];
      }
      assert users[..|users|] == users && scores[..|users|] == scores[..];
      return Success(scores[..]);
    }
  }
}
