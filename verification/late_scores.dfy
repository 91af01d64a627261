/** The late-submission rules the scorer hard-codes
    (internal/scorer/scorer.go): `linearScore`, `exponentialScore` and
    `scorePipeline`, which uses the exponential one. Times are seconds on the
    course clock; the floating-point decay is the `Decay` parameter. */
module LateScores {
  import opened Models
  import opened Scoring
  import opened Dates
  import D = Deadlines

  /** One week in seconds. */
  const Week := 7 * 24 * 3600

  /** `deltaDays / 5.0`: the exponential decay runs over five days. */
  const ExponentialScale := 5 * 24 * 3600

  const ExponentialThreshold := 0.3

  /** Go's integer division by a positive divisor: truncation toward zero. */
  function GoDiv(a: int, b: int): (q: int)
    requires b > 0
    ensures a >= 0 ==> q * b <= a < q * b + b
    ensures a < 0 ==> q * b - b < a <= q * b
  {
    if a >= 0 then a / b else -((-a) / b)
  }

  /** Halving with `/ 2` and truncating a product with 0.5 agree. */
  lemma HalfIsTruncatedHalf(n: int)
    ensures GoDiv(n, 2) == Trunc(n as real * 0.5)
  {
    var q := GoDiv(n, 2);
    TruncBounds(n as real * 0.5);
    if n >= 0 {
      assert q as real <= n as real * 0.5 < q as real + 1.0;
    } else {
      assert q as real - 1.0 < n as real * 0.5 <= q as real;
    }
  }

  function DeadlineOf(group: D.TaskGroup): int {
    Instant(group.deadline)
  }

  /** `linearScore`: nothing for an unsuccessful pipeline, otherwise the
      late rule below against the group's deadline. */
  function LinearScore(task: D.Task, group: D.TaskGroup, p: Pipeline): (score: int)
    ensures p.status != StatusSuccess ==> score == 0
    ensures p.status == StatusSuccess ==> score == LinearLate(task.score, DeadlineOf(group), p.startedAt)
  {
    if p.status != StatusSuccess then 0
    else LinearLate(task.score, DeadlineOf(group), p.startedAt)
  }

  /** The full score before the deadline, half of it (integer division)
      more than a week after, and in between a share falling linearly from
      1 to 1/2. */
  function LinearLate(maxScore: int, deadline: int, submit: int): (score: int)
    ensures submit < deadline ==> score == maxScore
    ensures submit > deadline + Week ==> score == GoDiv(maxScore, 2)
  {
    if submit < deadline then maxScore
    else if submit > deadline + Week then GoDiv(maxScore, 2)
    else Scaled(maxScore, WindowMultiplier(submit - deadline))
  }

  /** The share inside the week after the deadline. */
  function WindowMultiplier(elapsed: int): real {
    1.0 - 0.5 * elapsed as real / Week as real
  }

  /** Inside the week the share is the linear policy's multiplier. */
  lemma WindowIsLinearMultiplier(elapsed: int)
    requires 0 <= elapsed <= Week
    ensures WindowMultiplier(elapsed) == LinearMultiplier(Week, 0.5, elapsed)
  {
    if elapsed < Week {
      var delta := elapsed as real / Week as real;
      calc {
        WindowMultiplier(elapsed);
        1.0 - 0.5 * delta;
        (1.0 - delta) + 0.5 * delta;
      }
    }
  }

  /** `exponentialScore`: nothing for an unsuccessful pipeline, otherwise
      the late rule below against the group's deadline. */
  function ExponentialScore(decay: Decay, task: D.Task, group: D.TaskGroup, p: Pipeline): (score: int)
    ensures p.status != StatusSuccess ==> score == 0
    ensures p.status == StatusSuccess ==> score == ExponentialLate(decay, task.score, DeadlineOf(group), p.startedAt)
  {
    if p.status != StatusSuccess then 0
    else ExponentialLate(decay, task.score, DeadlineOf(group), p.startedAt)
  }

  /** The full score before the deadline, then the score scaled by the
      larger of 0.3 and the decay over five days. */
  function ExponentialLate(decay: Decay, maxScore: int, deadline: int, submit: int): (score: int)
    ensures submit < deadline ==> score == maxScore
  {
    if submit < deadline then maxScore
    else Trunc(Max(ExponentialThreshold, decay(submit - deadline, ExponentialScale)) * maxScore as real)
  }

  /** `scorePipeline`: the exponential rule. */
  function ScorePipeline(decay: Decay, task: D.Task, group: D.TaskGroup, p: Pipeline): int {
    ExponentialScore(decay, task, group, p)
  }

  /** The scorer's linear rule is the linear policy with a one-week window
      and multiplier 0.5; the halving after the window meets the window's
      end value exactly. */
  lemma LinearLateIsLinearPolicy(decay: Decay, maxScore: int, deadline: int, submit: int)
    ensures LinearLate(maxScore, deadline, submit) == Linear(Week, 0.5).Score(decay, maxScore, deadline, submit)
  {
    if submit > deadline + Week {
      LinearLateAfterWeek(decay, maxScore, deadline, submit);
    } else if submit >= deadline {
      LinearLateInWeek(decay, maxScore, deadline, submit);
    }
  }

  lemma LinearLateAfterWeek(decay: Decay, maxScore: int, deadline: int, submit: int)
    requires submit > deadline + Week
    ensures LinearLate(maxScore, deadline, submit) == Linear(Week, 0.5).Score(decay, maxScore, deadline, submit)
  {
    HalfIsTruncatedHalf(maxScore);
  }

  lemma LinearLateInWeek(decay: Decay, maxScore: int, deadline: int, submit: int)
    requires deadline <= submit <= deadline + Week
    ensures LinearLate(maxScore, deadline, submit) == Linear(Week, 0.5).Score(decay, maxScore, deadline, submit)
  {
    LinearLateWindow(maxScore, deadline, submit);
    LinearScoreAt(Week, 0.5, decay, maxScore, deadline, submit);
  }

  lemma LinearLateWindow(maxScore: int, deadline: int, submit: int)
    requires deadline <= submit <= deadline + Week
    ensures LinearLate(maxScore, deadline, submit) == Scaled(maxScore, LinearMultiplier(Week, 0.5, submit - deadline))
  {
    WindowIsLinearMultiplier(submit - deadline);
  }

  /** The scorer's exponential rule is the exponential policy with a
      five-day scale and threshold 0.3. */
  lemma ExponentialLateIsPolicy(decay: Decay, maxScore: int, deadline: int, submit: int)
    ensures ExponentialLate(decay, maxScore, deadline, submit)
         == Exponential(ExponentialScale, ExponentialThreshold).Score(decay, maxScore, deadline, submit)
  {
  }

  /** A late successful pipeline scores between 30% of the task (truncated)
      and the full task score, whatever the decay in [0, 1]. */
  lemma ScorePipelineBounds(decay: Decay, task: D.Task, group: D.TaskGroup, p: Pipeline)
    requires task.score >= 0 && p.status == StatusSuccess && p.startedAt >= DeadlineOf(group)
    requires DecayBounded(decay, p.startedAt - DeadlineOf(group), ExponentialScale)
    ensures Scaled(task.score, ExponentialThreshold) <= ScorePipeline(decay, task, group, p) <= task.score
  {
    ExponentialLateIsPolicy(decay, task.score, DeadlineOf(group), p.startedAt);
    ExponentialScoreBounds(ExponentialScale, ExponentialThreshold, decay, task.score, DeadlineOf(group), p.startedAt);
  }

  /** The values of the repository's tests for a 9000-point task that do
      not hang on floating-point rounding: the full score before or at the
      deadline, half of it a week or more after, and nothing for a pipeline
      that is pending, running or failed. */
  lemma LinearScoreTestValues(task: D.Task, group: D.TaskGroup, p: Pipeline)
    requires task.score == 9000
    ensures p.status == StatusSuccess && p.startedAt <= DeadlineOf(group) ==> LinearScore(task, group, p) == 9000
    ensures p.status == StatusSuccess && p.startedAt >= DeadlineOf(group) + Week ==> LinearScore(task, group, p) == 4500
    ensures p.status in {StatusPending, StatusRunning, StatusFailed} ==> LinearScore(task, group, p) == 0
  {
  }

  /** The exponential counterpart: the full score before or at the deadline
      when the decay starts at 1, at least 30% afterwards, and nothing for
      an unsuccessful pipeline. */
  lemma ExponentialScoreTestValues(decay: Decay, task: D.Task, group: D.TaskGroup, p: Pipeline)
    requires task.score == 9000 && decay(0, ExponentialScale) == 1.0
    requires DecayBounded(decay, p.startedAt - DeadlineOf(group), ExponentialScale)
    ensures p.status == StatusSuccess && p.startedAt <= DeadlineOf(group) ==> ExponentialScore(decay, task, group, p) == 9000
    ensures p.status == StatusSuccess ==> 2700 <= ExponentialScore(decay, task, group, p) <= 9000
    ensures p.status in {StatusPending, StatusRunning, StatusFailed} ==> ExponentialScore(decay, task, group, p) == 0
  {
    if p.status == StatusSuccess && p.startedAt >= DeadlineOf(group) {
      ExponentialLateIsPolicy(decay, task.score, DeadlineOf(group), p.startedAt);
      ExponentialScoreBounds(ExponentialScale, ExponentialThreshold, decay, task.score, DeadlineOf(group), p.startedAt);
      assert Scaled(9000, ExponentialThreshold) == 2700;
    }
  }
}
