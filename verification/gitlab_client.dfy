/** Project naming and the links the GitLab client builds
    (internal/platform/gitlab/gitlab_client.go). The remote calls of
    InitializeProject are outside this model; its guard is modelled. */
module GitlabClient {
  import opened Wrappers
  import opened Text
  import opened Models
  import opened ClientBase
  import Branches

  /** The GitLab part of the course configuration. */
  datatype Config = Config(baseUrl: string, groupName: string, taskUrlPrefix: string)

  datatype Client = Client(config: Config, translit: Transliterator)

  /** `<group>-<first>-<last>-<login>`; the source dereferences the GitLab
      login, so callers must have one. */
  function MakeProjectName(c: Client, user: User): string
    requires user.gitlabLogin.Some?
  {
    user.groupName + "-" + CleanupName(c.translit, user.firstName) + "-"
      + CleanupName(c.translit, user.lastName) + "-" + CleanupLogin(user.gitlabLogin.value)
  }

  /** The project path inside the course group. */
  function MakeProjectWithNamespace(c: Client, project: string): (path: string)
    ensures HasPrefix(path, c.config.groupName + "/")
    ensures path[|c.config.groupName| + 1..] == project
  {
    c.config.groupName + "/" + project
  }

  function MakeProjectURL(c: Client, user: User): string
    requires user.gitlabLogin.Some?
  {
    c.config.baseUrl + "/" + c.config.groupName + "/" + MakeProjectName(c, user)
  }

  function MakeProjectSubmitsURL(c: Client, user: User): string
    requires user.gitlabLogin.Some?
  {
    MakeProjectURL(c, user) + "/-/jobs"
  }

  function MakePipelineURL(c: Client, user: User, p: Pipeline): string
    requires user.gitlabLogin.Some?
  {
    c.config.baseUrl + "/" + c.config.groupName + "/" + MakeProjectName(c, user)
      + "/-/pipelines/" + IntToString(p.id)
  }

  function MakeBranchURL(c: Client, user: User, p: Pipeline): string
    requires user.gitlabLogin.Some?
  {
    c.config.baseUrl + "/" + c.config.groupName + "/" + MakeProjectName(c, user)
      + "/-/tree/submits/" + p.task
  }

  /** The statement page of a task. */
  function MakeTaskURL(c: Client, task: string): (url: string)
    ensures HasPrefix(url, c.config.taskUrlPrefix + "/")
    ensures url[|c.config.taskUrlPrefix| + 1..] == task
  {
    c.config.taskUrlPrefix + "/" + task
  }

  /** The guard that runs before any remote call: a user without both a
      GitLab id and login is refused; otherwise the project to set up is named. */
  function InitializeProject(c: Client, user: User): (r: Result<string>)
    ensures r.Failure? <==> user.gitlabId.None? || user.gitlabLogin.None?
    ensures r.Failure? ==> r.error == "Empty gitlab user"
    ensures r.Success? ==> r.value == MakeProjectName(c, user)
  {
    if user.gitlabId.None? || user.gitlabLogin.None? then Failure("Empty gitlab user")
    else Success(MakeProjectName(c, user))
  }

  /** The project name starts with the group name and its next two
      '-'-separated parts are the cleaned first and last name, whatever
      dashes the group name or the login contain. */
  lemma ProjectNameParts(c: Client, user: User)
    requires user.gitlabLogin.Some?
    ensures HasPrefix(MakeProjectName(c, user), user.groupName + "-")
    ensures
      var first := CleanupName(c.translit, user.firstName);
      var last := CleanupName(c.translit, user.lastName);
      var login := CleanupLogin(user.gitlabLogin.value);
      var rest := MakeProjectName(c, user)[|user.groupName| + 1..];
      SplitAtDash(rest) == (first, last + "-" + login) &&
      SplitAtDash(SplitAtDash(rest).1) == (last, login)
  {
    var first := CleanupName(c.translit, user.firstName);
    var last := CleanupName(c.translit, user.lastName);
    var login := CleanupLogin(user.gitlabLogin.value);
    var name := MakeProjectName(c, user);
    assert name == user.groupName + "-" + (first + "-" + (last + "-" + login));
    assert name[|user.groupName| + 1..] == first + "-" + (last + "-" + login);
    SplitAtDashJoin(first, last + "-" + login);
    SplitAtDashJoin(last, login);
  }

  /** Every link of a student's project lives under the project URL, which is
      the base URL followed by the namespaced project path; the branch link
      names exactly the branch the student pushes for the task. */
  lemma LinksExtendProjectURL(c: Client, user: User, p: Pipeline)
    requires user.gitlabLogin.Some?
    ensures MakeProjectURL(c, user) == c.config.baseUrl + "/" + MakeProjectWithNamespace(c, MakeProjectName(c, user))
    ensures MakeProjectSubmitsURL(c, user) == MakeProjectURL(c, user) + "/-/jobs"
    ensures MakePipelineURL(c, user, p) == MakeProjectURL(c, user) + "/-/pipelines/" + IntToString(p.id)
    ensures MakeBranchURL(c, user, p) == MakeProjectURL(c, user) + "/-/tree/" + Branches.MakeBranchForTask(p.task)
  {
    var base, group, name := c.config.baseUrl, c.config.groupName, MakeProjectName(c, user);
    var url := MakeProjectURL(c, user);
    JoinPath(base, group, name);
    assert url == base + "/" + group + "/" + name;
    assert MakeProjectWithNamespace(c, name) == group + "/" + name;
    assert MakePipelineURL(c, user, p) == url + "/-/pipelines/" + IntToString(p.id);
    var task := p.task;
    assert MakeBranchURL(c, user, p) == url + "/-/tree/submits/" + task;
    TreeTail(url, task);
  }

  lemma TreeTail(url: string, task: string)
    ensures url + "/-/tree/submits/" + task == url + "/-/tree/" + (Branches.BranchPrefix + task)
  {
    assert "/-/tree/submits/" == "/-/tree/" + Branches.BranchPrefix;
  }
}
