/** Late-submission policies and the course's scoring block
    (internal/deadlines/scoring.go). Times and durations are whole seconds.
    Products are taken over exact reals and truncated toward zero like Go's
    `int(float64)`; the floating-point value of `1.0/math.Exp(x)` is the
    parameter `decay`. */
module Scoring {
  import opened Wrappers

  /** Go's conversion of a float to `int`: truncation toward zero. */
  function Trunc(x: real): int {
    if x >= 0.0 then x.Floor else -((-x).Floor)
  }

  /** `int(float64(maxScore) * m)`: a task score scaled by a share. */
  function Scaled(maxScore: int, m: real): int {
    Trunc(maxScore as real * m)
  }

  /** The truncated value is the integer next to `x` on the side of zero. */
  lemma TruncBounds(x: real)
    ensures x >= 0.0 ==> 0 <= Trunc(x) && Trunc(x) as real <= x < Trunc(x) as real + 1.0
    ensures x < 0.0 ==> Trunc(x) <= 0 && Trunc(x) as real - 1.0 < x <= Trunc(x) as real
  {
  }

  lemma TruncMonotone(x: real, y: real)
    requires x <= y
    ensures Trunc(x) <= Trunc(y)
  {
    TruncBounds(x);
    TruncBounds(y);
  }

  lemma TruncInt(n: int)
    ensures Trunc(n as real) == n
  {
    TruncBounds(n as real);
  }

  /** A non-negative score scaled by a larger share is no smaller, and the
      whole share gives the score back. */
  lemma ScaledMonotone(maxScore: int)
    requires maxScore >= 0
    ensures forall x: real, y: real :: x <= y ==> Scaled(maxScore, x) <= Scaled(maxScore, y)
    ensures Scaled(maxScore, 1.0) == maxScore
  {
    forall x: real, y: real | x <= y
      ensures Scaled(maxScore, x) <= Scaled(maxScore, y)
    {
      ScaleMonotone(maxScore as real, x, y);
      TruncMonotone(maxScore as real * x, maxScore as real * y);
    }
    assert maxScore as real * 1.0 == maxScore as real;
    TruncInt(maxScore);
  }

  lemma ScaleMonotone(a: real, x: real, y: real)
    requires a >= 0.0 && x <= y
    ensures a * x <= a * y
  {
  }

  /** The float `1.0/math.Exp(float64(elapsed)/float64(scale))` for an
      elapsed time and a scale in seconds. */
  type Decay = (int, int) -> real

  /** A decay that behaves like e^(-x): at most 1 after the deadline and
      exactly 1 at it. */
  predicate DecayBounded(decay: Decay, elapsed: int, scale: int) {
    0.0 <= decay(elapsed, scale) <= 1.0
  }

  /** `math.Max` (NaN is not modelled). */
  function Max(a: real, b: real): real {
    if a >= b then a else b
  }

  /** A late policy: `ExponentialScore` decays with the elapsed time over
      `scale` seconds (its `Multiplier` duration) but never below `threshold`; `LinearScore` goes
      from the full score at the deadline to `multiplier` times it `after`
      seconds later. */
  datatype Policy =
    | Exponential(scale: int, threshold: real)
    | Linear(after: int, multiplier: real)
  {
    /** `ScoringPolicy.Score(maxScore, deadline, submitTime)`. */
    function Score(decay: Decay, maxScore: int, deadline: int, submit: int): (score: int)
      ensures submit < deadline ==> score == maxScore
    {
      if submit < deadline then maxScore
      else match this
        case Exponential(scale, threshold) =>
          Scaled(maxScore, Max(threshold, decay(submit - deadline, scale)))
        case Linear(after, mult) =>
          Scaled(maxScore, LinearMultiplier(after, mult, submit - deadline))
    }
  }

  /** The multiplier of `LinearScore` `elapsed` seconds after the deadline. */
  function LinearMultiplier(after: int, multiplier: real, elapsed: int): real
    requires elapsed >= 0
  {
    if elapsed < after then
      var delta := elapsed as real / after as real;
      (1.0 - delta) + multiplier * delta
    else multiplier
  }

  /** 1 at the deadline, `multiplier` once the window has passed, and in
      between a value between the two. */
  lemma LinearMultiplierRange(after: int, multiplier: real, elapsed: int)
    requires elapsed >= 0
    ensures elapsed >= after ==> LinearMultiplier(after, multiplier, elapsed) == multiplier
    ensures elapsed == 0 && after > 0 ==> LinearMultiplier(after, multiplier, elapsed) == 1.0
    ensures multiplier <= 1.0 ==> multiplier <= LinearMultiplier(after, multiplier, elapsed) <= 1.0
  {
    if elapsed < after {
      var delta := elapsed as real / after as real;
      assert 0.0 <= delta < 1.0;
    }
  }

  /** With a multiplier of at most 1 the linear multiplier never grows with
      time: a submission at `s2` gets no more than one at `s1`. */
  lemma LinearMultiplierMonotone(after: int, multiplier: real, deadline: int, s1: int, s2: int)
    requires deadline <= s1 <= s2 && multiplier <= 1.0
    ensures LinearMultiplier(after, multiplier, s2 - deadline) <= LinearMultiplier(after, multiplier, s1 - deadline)
  {
    if s2 - deadline < after {
      var d1 := (s1 - deadline) as real / after as real;
      var d2 := (s2 - deadline) as real / after as real;
      assert d1 <= d2;
      assert (1.0 - multiplier) * d1 <= (1.0 - multiplier) * d2;
    }
  }

  lemma LinearScoreAt(after: int, multiplier: real, decay: Decay, maxScore: int, deadline: int, submit: int)
    requires submit >= deadline
    ensures Linear(after, multiplier).Score(decay, maxScore, deadline, submit)
         == Scaled(maxScore, LinearMultiplier(after, multiplier, submit - deadline))
  {
  }

  /** From `after` seconds past the deadline on, the linear policy pays the
      task score scaled by `multiplier`. */
  lemma LinearScoreAfterWindow(after: int, multiplier: real, decay: Decay, maxScore: int, deadline: int, submit: int)
    requires submit >= deadline && submit >= deadline + after
    ensures Linear(after, multiplier).Score(decay, maxScore, deadline, submit) == Scaled(maxScore, multiplier)
  {
    LinearScoreAt(after, multiplier, decay, maxScore, deadline, submit);
    LinearMultiplierRange(after, multiplier, submit - deadline);
  }

  lemma LinearScoreMonotoneLate(after: int, multiplier: real, decay: Decay, maxScore: int, deadline: int, s1: int, s2: int)
    requires deadline <= s1 <= s2 && multiplier <= 1.0 && maxScore >= 0
    ensures Linear(after, multiplier).Score(decay, maxScore, deadline, s2)
         <= Linear(after, multiplier).Score(decay, maxScore, deadline, s1)
  {
    LinearScoreAt(after, multiplier, decay, maxScore, deadline, s1);
    LinearScoreAt(after, multiplier, decay, maxScore, deadline, s2);
    LinearMultiplierMonotone(after, multiplier, deadline, s1, s2);
    ScaledMonotone(maxScore);
  }

  /** A linear policy gives a later submission no more than an earlier one. */
  lemma LinearScoreMonotone(after: int, multiplier: real, decay: Decay, maxScore: int, deadline: int, s1: int, s2: int)
    requires s1 <= s2 && multiplier <= 1.0 && maxScore >= 0
    ensures Linear(after, multiplier).Score(decay, maxScore, deadline, s2)
         <= Linear(after, multiplier).Score(decay, maxScore, deadline, s1)
  {
    if s1 >= deadline {
      LinearScoreMonotoneLate(after, multiplier, decay, maxScore, deadline, s1, s2);
    } else if s2 >= deadline {
      LinearScoreBounds(after, multiplier, decay, maxScore, deadline, s2);
    }
  }

  /** With a multiplier of at most 1, a late linear score lies between the
      truncated share `multiplier * maxScore` and `maxScore`. */
  lemma LinearScoreBounds(after: int, multiplier: real, decay: Decay, maxScore: int, deadline: int, submit: int)
    requires maxScore >= 0 && submit >= deadline && multiplier <= 1.0
    ensures Scaled(maxScore, multiplier) <= Linear(after, multiplier).Score(decay, maxScore, deadline, submit) <= maxScore
  {
    LinearScoreAt(after, multiplier, decay, maxScore, deadline, submit);
    LinearMultiplierRange(after, multiplier, submit - deadline);
    ScaledMonotone(maxScore);
  }

  /** With a threshold of at most 1 and a decay in [0, 1], a late
      exponential score lies between the truncated share
      `threshold * maxScore` and `maxScore`. */
  lemma ExponentialScoreBounds(scale: int, threshold: real, decay: Decay, maxScore: int, deadline: int, submit: int)
    requires maxScore >= 0 && submit >= deadline && threshold <= 1.0
    requires DecayBounded(decay, submit - deadline, scale)
    ensures Scaled(maxScore, threshold) <= Exponential(scale, threshold).Score(decay, maxScore, deadline, submit) <= maxScore
  {
    ScaledMonotone(maxScore);
  }

  // ------------------------------------------------------ the scoring block

  /** A named policy; `policy` is None until its kind has been recognised. */
  datatype PolicySpec = PolicySpec(name: string, kind: string, policy: Option<Policy>)

  datatype ScoringGroup = ScoringGroup(name: string, weight: real, maxScore: int, policy: string)

  datatype ScoringBlock = ScoringBlock(policies: seq<PolicySpec>, groups: seq<ScoringGroup>, defaultGroup: string)

  /** What the YAML library yields for one policy entry: the error of the
      inline fields, the fields, and, when a `spec` key is present, the
      result of decoding it as each policy kind. */
  datatype RawPolicy = RawPolicy(
    fieldsError: Option<string>,
    name: string,
    kind: string,
    spec: Option<SpecNode>)

  datatype SpecNode = SpecNode(
    asExponential: Result<(int, real)>,  // (multiplier, threshold)
    asLinear: Result<(int, real)>)       // (after, multiplier)

  /** The outcome of a decoding step that may also crash the process. */
  datatype Decoded = Done(spec: PolicySpec, err: Option<string>) | Panic(reason: string)

  const NilFunctionCall := "invalid memory address or nil pointer dereference"

  /** `ScoringPolicySpec.UnmarshalYAML` as written, applied to
      `receiver`: a failing field decode leaves it untouched; otherwise it is
      overwritten by the name and kind with no policy, and the kind selects
      the policy the `spec` node is decoded into. With no `spec` key the
      saved decoder is a nil function and calling it panics. */
  function UnmarshalPolicySpec(receiver: PolicySpec, raw: RawPolicy): (r: Decoded)
    ensures raw.fieldsError.Some? ==> r == Done(receiver, raw.fieldsError)
    ensures raw.fieldsError.None? && raw.kind != "exp" && raw.kind != "linear" ==>
      r == Done(PolicySpec(raw.name, raw.kind, None), Some("Unknown policy " + raw.kind))
    ensures r.Done? && r.err.None? ==>
      r.spec.name == raw.name && r.spec.kind == raw.kind && r.spec.policy.Some? &&
      (raw.kind == "exp" <==> r.spec.policy.value.Exponential?)
    ensures r.Panic? <==> raw.fieldsError.None? && (raw.kind == "exp" || raw.kind == "linear") && raw.spec.None?
    ensures raw.fieldsError.None? && raw.kind == "exp" && raw.spec.Some? ==>
      match raw.spec.value.asExponential
      case Success(fields) => r == Done(PolicySpec(raw.name, "exp", Some(Exponential(fields.0, fields.1))), None)
      case Failure(e) => r == Done(PolicySpec(raw.name, "exp", Some(Exponential(0, 0.0))), Some(e))
    ensures raw.fieldsError.None? && raw.kind == "linear" && raw.spec.Some? ==>
      match raw.spec.value.asLinear
      case Success(fields) => r == Done(PolicySpec(raw.name, "linear", Some(Linear(fields.0, fields.1))), None)
      case Failure(e) => r == Done(PolicySpec(raw.name, "linear", Some(Linear(0, 0.0))), Some(e))
  {
    if raw.fieldsError.Some? then Done(receiver, raw.fieldsError)
    else
      var cleared := PolicySpec(raw.name, raw.kind, None);
      if raw.kind != "exp" && raw.kind != "linear" then Done(cleared, Some("Unknown policy " + raw.kind))
      else if raw.spec.None? then Panic(NilFunctionCall)
      else
        var zero := if raw.kind == "exp" then Exponential(0, 0.0) else Linear(0, 0.0);
        var decoded := if raw.kind == "exp" then raw.spec.value.asExponential else raw.spec.value.asLinear;
        match decoded
        case Success(fields) =>
          var p := if raw.kind == "exp" then Exponential(fields.0, fields.1) else Linear(fields.0, fields.1);
          Done(PolicySpec(raw.name, raw.kind, Some(p)), None)
        case Failure(e) => Done(PolicySpec(raw.name, raw.kind, Some(zero)), Some(e))
  }

  /** The evidently intended decoding: a policy without a `spec` key keeps
      the zero-valued policy of its kind instead of crashing. */
  function UnmarshalPolicySpecOrZero(receiver: PolicySpec, raw: RawPolicy): (r: Decoded)
    ensures r.Done?
    ensures raw.spec.Some? ==> r == UnmarshalPolicySpec(receiver, raw)
    ensures raw.spec.None? && raw.fieldsError.None? && (raw.kind == "exp" || raw.kind == "linear") ==>
      r.err.None? && r.spec.policy.Some? && (raw.kind == "exp" <==> r.spec.policy.value.Exponential?)
  {
    if raw.spec.None? && raw.fieldsError.None? && (raw.kind == "exp" || raw.kind == "linear") then
      Done(PolicySpec(raw.name, raw.kind, Some(if raw.kind == "exp" then Exponential(0, 0.0) else Linear(0, 0.0))), None)
    else UnmarshalPolicySpec(receiver, raw)
  }

  /** A policy entry of a known kind without a `spec` key crashes the
      as-written decoder. */
  lemma MissingSpecPanics(receiver: PolicySpec, name: string)
    ensures UnmarshalPolicySpec(receiver, RawPolicy(None, name, "exp", None)).Panic?
    ensures UnmarshalPolicySpecOrZero(receiver, RawPolicy(None, name, "exp", None)).Done?
  {
  }
}
