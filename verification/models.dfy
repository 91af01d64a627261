/** The persisted records of internal/models: CI pipelines, flags, users and
    manual score overrides. Timestamps are whole seconds on the course's
    local clock; Go's nullable pointers are `Option`s. */
module Models {
  import opened Wrappers

  /** CI pipeline statuses as the code-hosting platforms report them. */
  type PipelineStatus = string

  const StatusBanned: PipelineStatus := "banned"
  const StatusFailed: PipelineStatus := "failed"
  const StatusPending: PipelineStatus := "pending"
  const StatusRunning: PipelineStatus := "running"
  const StatusSuccess: PipelineStatus := "success"
  const StatusCanceled: PipelineStatus := "canceled"

  /** One CI run of a student's project; `id` is the primary key. */
  datatype Pipeline = Pipeline(
    id: int,
    project: string,
    task: string,
    status: PipelineStatus,
    startedAt: int)

  /** An out-of-band completion proof; `login` is NULL until a student claims it. */
  datatype Flag = Flag(
    id: string,
    task: string,
    login: Option<string>,
    createdAt: int)

  /** A registered student. The hosting accounts stay NULL until the OAuth
      step fills them in. */
  datatype User = User(
    id: nat,
    gitlabId: Option<int>,
    gitlabLogin: Option<string>,
    giteaId: Option<int>,
    giteaLogin: Option<string>,
    repository: Option<string>,
    firstName: string,
    lastName: string,
    groupName: string,
    hasRetake: bool)

  /** A manual correction of one student's task, unique per (login, task). */
  datatype Override = Override(
    login: string,
    task: string,
    score: int,
    status: PipelineStatus)
}
