/** The records the scorer produces (internal/scorer/results.go) and the
    task status a pipeline status shows as. */
module Results {
  import M = Models
  import D = Deadlines
  import opened Dates

  /** How a task looks on the student's page. */
  type TaskStatus = string

  const TaskStatusAssigned: TaskStatus := "assigned"
  const TaskStatusFailed: TaskStatus := "failed"
  const TaskStatusChecking: TaskStatus := "checking"
  const TaskStatusSuccess: TaskStatus := "success"

  predicate IsTaskStatus(s: TaskStatus) {
    s == TaskStatusAssigned || s == TaskStatusFailed || s == TaskStatusChecking || s == TaskStatusSuccess
  }

  /** `ClassifyPipelineStatus`: a failed run shows as failed, a pending or
      running one as being checked, a successful one as solved, and every
      other status (banned, canceled, unknown) as merely assigned. */
  function ClassifyPipelineStatus(status: M.PipelineStatus): (r: TaskStatus)
    ensures IsTaskStatus(r)
    ensures r == TaskStatusFailed <==> status == M.StatusFailed
    ensures r == TaskStatusChecking <==> status == M.StatusPending || status == M.StatusRunning
    ensures r == TaskStatusSuccess <==> status == M.StatusSuccess
  {
    match status
    case "failed" => TaskStatusFailed
    case "pending" => TaskStatusChecking
    case "running" => TaskStatusChecking
    case "success" => TaskStatusSuccess
    case _ => TaskStatusAssigned
  }

  datatype ScoredTask = ScoredTask(
    task: string,
    status: TaskStatus,
    score: int,
    maxScore: int,
    taskUrl: string,
    pipelineUrl: string)

  datatype ScoredTaskGroup = ScoredTaskGroup(
    title: string,
    prettyTitle: string,
    deadline: Date,
    tasks: seq<ScoredTask>,
    score: int,
    maxScore: int)

  /** The student as the standings show them. */
  datatype User = User(firstName: string, lastName: string, gitlabLogin: string, gitlabProject: string)
  {
    /** `FullName`: the first name, one space, the last name. */
    function FullName(): (name: string)
      ensures |name| == |firstName| + 1 + |lastName|
      ensures name[..|firstName|] == firstName && name[|firstName|] == ' ' && name[|firstName| + 1..] == lastName
    {
      firstName + " " + lastName
    }
  }

  datatype UserScores = UserScores(groups: seq<ScoredTaskGroup>, score: int, maxScore: int, user: User)

  /** The standings of a student group: the course definition they were
      computed from (shared with the fetcher) and one entry per student. */
  datatype Standings = Standings(deadlines: D.Deadlines, users: seq<UserScores>)
}
