/** Submission branches: a student submits task `t` by pushing branch
    `submits/t`; pipelines report the branch and the task is read back from
    it (internal/platform/base/base_pipelines.go). */
module Branches {
  import opened Text

  const BranchPrefix: string := "submits/"

  /** The branch a student pushes to submit `task`. */
  function MakeBranchForTask(task: string): (branch: string)
    ensures HasPrefix(branch, BranchPrefix)
    ensures |branch| == |task| + 8
    ensures branch[8..] == task
  {
    BranchPrefix + task
  }

  /** The task a branch submits: one leading "submits/" removed, any other
      branch name returned as it is. */
  function ParseTaskFromBranch(branch: string): (task: string)
    ensures HasPrefix(branch, BranchPrefix) ==> BranchPrefix + task == branch
    ensures !HasPrefix(branch, BranchPrefix) ==> task == branch
    ensures |task| <= |branch| && task == branch[|branch| - |task|..]
  {
    TrimPrefix(branch, BranchPrefix)
  }

  lemma ParseMakeRoundTrip(task: string)
    ensures ParseTaskFromBranch(MakeBranchForTask(task)) == task
  {
  }

  lemma MakeParseRoundTrip(branch: string)
    requires HasPrefix(branch, BranchPrefix)
    ensures MakeBranchForTask(ParseTaskFromBranch(branch)) == branch
  {
  }

  /** Only one prefix is stripped: a task may itself start with "submits/". */
  lemma StripsOnePrefix(task: string)
    ensures ParseTaskFromBranch(BranchPrefix + BranchPrefix + task) == BranchPrefix + task
  {
    assert (BranchPrefix + BranchPrefix + task)[8..] == BranchPrefix + task;
  }
}

/** The older copy of the same rule kept in internal/gitlab/pipelines.go,
    with its own prefix constant. */
module GitlabBranches {
  import opened Text
  import Branches

  const branchPrefix: string := "submits/"

  function MakeBranchForTask(task: string): (branch: string)
    ensures branch == branchPrefix + task
  {
    branchPrefix + task
  }

  function ParseTaskFromBranch(branch: string): (task: string)
    ensures HasPrefix(branch, branchPrefix) ==> task == branch[|branchPrefix|..]
    ensures !HasPrefix(branch, branchPrefix) ==> task == branch
  {
    TrimPrefix(branch, branchPrefix)
  }

  lemma RoundTrip(task: string)
    ensures ParseTaskFromBranch(MakeBranchForTask(task)) == task
  {
  }

  /** Both copies compute the same branch names and the same tasks. */
  lemma AgreesWithBase(task: string, branch: string)
    ensures MakeBranchForTask(task) == Branches.MakeBranchForTask(task)
    ensures ParseTaskFromBranch(branch) == Branches.ParseTaskFromBranch(branch)
  {
  }
}
