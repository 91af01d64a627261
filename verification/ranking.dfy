/** Which of a student's pipelines and flags stand for a task
    (internal/scorer/scorer.go): the rank of a pipeline status, the order on
    pipelines and on flags, and the keep-the-best loops. */
module Ranking {
  import opened Wrappers
  import opened Models
  import R = Results

  const RankAssigned := 0
  const RankFailed := 1
  const RankChecking := 2
  const RankSuccess := 3

  /** `classifyPipelineStatus`: the scorer's numeric rank of a status. */
  function Rank(status: PipelineStatus): (r: nat)
    ensures r <= 3
    ensures r == RankFailed <==> status == StatusFailed
    ensures r == RankChecking <==> status == StatusPending || status == StatusRunning
    ensures r == RankSuccess <==> status == StatusSuccess
  {
    match status
    case "failed" => RankFailed
    case "pending" => RankChecking
    case "running" => RankChecking
    case "success" => RankSuccess
    case _ => RankAssigned
  }

  /** The rank and the shown status agree: 0 is assigned, 1 failed,
      2 checking, 3 success. */
  lemma RankAgreesWithStatus(status: PipelineStatus)
    ensures Rank(status) == RankAssigned <==> R.ClassifyPipelineStatus(status) == R.TaskStatusAssigned
    ensures Rank(status) == RankFailed <==> R.ClassifyPipelineStatus(status) == R.TaskStatusFailed
    ensures Rank(status) == RankChecking <==> R.ClassifyPipelineStatus(status) == R.TaskStatusChecking
    ensures Rank(status) == RankSuccess <==> R.ClassifyPipelineStatus(status) == R.TaskStatusSuccess
  {
  }

  /** `pipelineLess`: a better status first, and among equal statuses the
      earlier start. */
  predicate PipelineLess(a: Pipeline, b: Pipeline) {
    if Rank(a.status) == Rank(b.status) then a.startedAt < b.startedAt
    else Rank(a.status) > Rank(b.status)
  }

  /** The order of `loadUserFlags`: the earlier creation first. */
  predicate FlagLess(a: Flag, b: Flag) {
    a.createdAt < b.createdAt
  }

  // ------------------------------------------------ strict weak orders

  /** `less` is asymmetric and "strictly before" followed by "not after" is
      "strictly before": what keeping the first best element needs. */
  ghost predicate StrictWeakOrder<T(!new)>(less: (T, T) -> bool) {
    (forall a, b :: less(a, b) ==> !less(b, a)) &&
    (forall a, b, c :: less(a, b) && !less(c, b) ==> less(a, c))
  }

  lemma PipelineLessOrder()
    ensures StrictWeakOrder(PipelineLess)
  {
  }

  lemma FlagLessOrder()
    ensures StrictWeakOrder(FlagLess)
  {
  }

  /** The pipeline order is transitive and irreflexive. */
  lemma PipelineLessTransitive(a: Pipeline, b: Pipeline, c: Pipeline)
    ensures !PipelineLess(a, a)
    ensures PipelineLess(a, b) && PipelineLess(b, c) ==> PipelineLess(a, c)
    ensures PipelineLess(a, b) ==> !PipelineLess(b, a)
  {
  }

  // ------------------------------------------------------- the best per key

  /** The loop of `loadUserPipelines` and `loadUserFlags` as data: each
      element replaces the kept one of its task only when strictly better. */
  function BestPerTask<T>(xs: seq<T>, task: T -> string, less: (T, T) -> bool): map<string, T> {
    if xs == [] then map[]
    else
      var m := BestPerTask(xs[..|xs| - 1], task, less);
      var x := xs[|xs| - 1];
      if task(x) !in m || less(x, m[task(x)]) then m[task(x) := x] else m
  }

  function Tasks<T>(xs: seq<T>, task: T -> string): set<string> {
    set i | 0 <= i < |xs| :: task(xs[i])
  }

  /** `xs[k]` is strictly better than every earlier element of its task and
      no later one is strictly better than it: the first best of its task. */
  ghost predicate FirstBest<T>(xs: seq<T>, task: T -> string, less: (T, T) -> bool, k: nat) {
    k < |xs| &&
    (forall j :: 0 <= j < k && task(xs[j]) == task(xs[k]) ==> less(xs[k], xs[j])) &&
    (forall j :: k < j < |xs| && task(xs[j]) == task(xs[k]) ==> !less(xs[j], xs[k]))
  }

  /** The map has exactly the tasks of the input. */
  lemma {:induction false} BestPerTaskKeys<T>(xs: seq<T>, task: T -> string, less: (T, T) -> bool)
    ensures BestPerTask(xs, task, less).Keys == Tasks(xs, task)
    decreases |xs|
  {
    if xs != [] {
      var init := xs[..|xs| - 1];
      BestPerTaskKeys(init, task, less);
      assert forall i :: 0 <= i < |init| ==> xs[i] == init[i];
      assert Tasks(xs, task) == Tasks(init, task) + {task(xs[|xs| - 1])};
    }
  }

  /** A kept first best stays first best when a not-better element follows. */
  lemma KeepFirstBest<T>(xs: seq<T>, task: T -> string, less: (T, T) -> bool, k: nat)
    requires xs != [] && FirstBest(xs[..|xs| - 1], task, less, k)
    requires var x := xs[|xs| - 1]; task(x) != task(xs[k]) || !less(x, xs[k])
    ensures FirstBest(xs, task, less, k)
  {
    assert forall j :: 0 <= j < |xs| - 1 ==> xs[j] == xs[..|xs| - 1][j];
  }

  /** A last element better than the kept one of its task becomes first best. */
  lemma NewFirstBest<T(!new)>(xs: seq<T>, task: T -> string, less: (T, T) -> bool, k: nat)
    requires StrictWeakOrder(less)
    requires xs != [] && FirstBest(xs[..|xs| - 1], task, less, k)
    requires var x := xs[|xs| - 1]; task(x) == task(xs[k]) && less(x, xs[k])
    ensures FirstBest(xs, task, less, |xs| - 1)
  {
    var n := |xs| - 1;
    var init := xs[..n];
    forall j | 0 <= j < n && task(xs[j]) == task(xs[n])
      ensures less(xs[n], xs[j])
    {
      assert xs[j] == init[j];
      if j < k {
        assert less(init[k], init[j]);
      } else if j > k {
        assert !less(init[j], init[k]);
      }
    }
  }

  /** Under each task of the map is the first best element of that task. */
  lemma {:induction false} BestPerTaskIsFirstBest<T(!new)>(xs: seq<T>, task: T -> string, less: (T, T) -> bool)
    requires StrictWeakOrder(less)
    ensures forall t :: t in BestPerTask(xs, task, less) ==>
      exists k: nat :: FirstBest(xs, task, less, k) && task(xs[k]) == t && BestPerTask(xs, task, less)[t] == xs[k]
    decreases |xs|
  {
    if xs != [] {
      var n := |xs| - 1;
      var init := xs[..n];
      var x := xs[n];
      BestPerTaskIsFirstBest(init, task, less);
      BestPerTaskKeys(init, task, less);
      var m := BestPerTask(init, task, less);
      forall t | t in BestPerTask(xs, task, less)
        ensures exists k: nat :: FirstBest(xs, task, less, k) && task(xs[k]) == t && BestPerTask(xs, task, less)[t] == xs[k]
      {
        if t in m {
          var k: nat :| FirstBest(init, task, less, k) && task(init[k]) == t && m[t] == init[k];
          assert init[k] == xs[k];
          if t == task(x) && less(x, m[t]) {
            NewFirstBest(xs, task, less, k);
            assert FirstBest(xs, task, less, n);
          } else {
            KeepFirstBest(xs, task, less, k);
          }
        } else {
          assert t == task(x);
          forall j | 0 <= j < n
            ensures task(xs[j]) != t
          {
            assert xs[j] == init[j];
            assert task(init[j]) in Tasks(init, task);
          }
          assert FirstBest(xs, task, less, n);
        }
      }
    }
  }

  /** The first best element of a task is unique, and nothing of its task
      is strictly better than it. */
  lemma FirstBestUnique<T(!new)>(xs: seq<T>, task: T -> string, less: (T, T) -> bool, k1: nat, k2: nat)
    requires StrictWeakOrder(less)
    requires FirstBest(xs, task, less, k1) && FirstBest(xs, task, less, k2) && task(xs[k1]) == task(xs[k2])
    ensures k1 == k2
    ensures forall j :: 0 <= j < |xs| && task(xs[j]) == task(xs[k1]) ==> !less(xs[j], xs[k1])
  {
  }

  /** `BestPerTask` computed by the source's loop. */
  method KeepBest<T>(xs: seq<T>, task: T -> string, less: (T, T) -> bool) returns (m: map<string, T>)
    ensures m == BestPerTask(xs, task, less)
  {
    m := map[];
    for i := 0 to |xs|
      invariant m == BestPerTask(xs[..i], task, less)
    {
      assert xs[..i + 1][..i] == xs[..i];
      var x := xs[i];
      if task(x) !in m || less(x, m[task(x)]) {
        m := m[task(x) := x];
      }
    }
    assert xs[..|xs|] == xs;
  }

  function PipelineTask(p: Pipeline): string { p.task }

  function FlagTask(f: Flag): string { f.task }

  /** `loadUserPipelines` once the project name is known: the provider's
      error is wrapped, otherwise the best pipeline per task. */
  method LoadUserPipelines(provider: string -> Result<seq<Pipeline>>, project: string)
    returns (r: Result<map<string, Pipeline>>)
    ensures provider(project).Failure? ==> r == Failure("Failed to list use rpipelines: " + provider(project).error)
    ensures provider(project).Success? ==> r == Success(BestPerTask(provider(project).value, PipelineTask, PipelineLess))
  {
    var pipelines := provider(project);
    if pipelines.Failure? {
      return Failure("Failed to list use rpipelines: " + pipelines.error);
    }
    var m := KeepBest(pipelines.value, PipelineTask, PipelineLess);
    return Success(m);
  }

  /** `loadUserFlags`: the provider's error is wrapped, otherwise the
      earliest flag per task. */
  method LoadUserFlags(provider: string -> Result<seq<Flag>>, login: string)
    returns (r: Result<map<string, Flag>>)
    ensures provider(login).Failure? ==> r == Failure("Failed to list user flags: " + provider(login).error)
    ensures provider(login).Success? ==> r == Success(BestPerTask(provider(login).value, FlagTask, FlagLess))
  {
    var flags := provider(login);
    if flags.Failure? {
      return Failure("Failed to list user flags: " + flags.error);
    }
    var m := KeepBest(flags.value, FlagTask, FlagLess);
    return Success(m);
  }
}
