/** Project naming and the links the Gitea client builds
    (internal/platform/gitea/gitea_client.go). The remote calls of
    InitializeProject are outside this model; its guard is modelled. */
module GiteaClient {
  import opened Wrappers
  import opened Text
  import opened Models
  import opened ClientBase
  import Branches

  /** The Gitea part of the course configuration. */
  datatype Config = Config(baseUrl: string, organizationName: string, taskUrlPrefix: string)

  datatype Client = Client(config: Config, translit: Transliterator)

  /** `<group>-<first>-<last>-<login>`; the source dereferences the Gitea
      login, so callers must have one. */
  function MakeProjectName(c: Client, user: User): string
    requires user.giteaLogin.Some?
  {
    user.groupName + "-" + CleanupName(c.translit, user.firstName) + "-"
      + CleanupName(c.translit, user.lastName) + "-" + CleanupLogin(user.giteaLogin.value)
  }

  /** The repository path inside the course organization. */
  function MakeProjectWithNamespace(c: Client, project: string): (path: string)
    ensures HasPrefix(path, c.config.organizationName + "/")
    ensures path[|c.config.organizationName| + 1..] == project
  {
    c.config.organizationName + "/" + project
  }

  function MakeProjectURL(c: Client, user: User): string
    requires user.giteaLogin.Some?
  {
    c.config.baseUrl + "/" + c.config.organizationName + "/" + MakeProjectName(c, user)
  }

  function MakeProjectSubmitsURL(c: Client, user: User): string
    requires user.giteaLogin.Some?
  {
    MakeProjectURL(c, user) + "/actions"
  }

  function MakePipelineURL(c: Client, user: User, p: Pipeline): string
    requires user.giteaLogin.Some?
  {
    c.config.baseUrl + "/" + c.config.organizationName + "/" + MakeProjectName(c, user)
      + "/actions/runs/" + IntToString(p.id)
  }

  /** The branch link as written: it names the task, not the branch
      `submits/<task>` the pipeline ran on. */
  function MakeBranchURL(c: Client, user: User, p: Pipeline): string
    requires user.giteaLogin.Some?
  {
    c.config.baseUrl + "/" + c.config.organizationName + "/" + MakeProjectName(c, user)
      + "/src/branch/" + p.task
  }

  /** The branch link pointing at the submit branch of the pipeline's task. */
  function MakeSubmitBranchURL(c: Client, user: User, p: Pipeline): (url: string)
    requires user.giteaLogin.Some?
    ensures HasPrefix(url, MakeProjectURL(c, user) + "/src/branch/")
    ensures Branches.ParseTaskFromBranch(url[|MakeProjectURL(c, user)| + 12..]) == p.task
  {
    var prefix := MakeProjectURL(c, user) + "/src/branch/";
    var url := prefix + Branches.MakeBranchForTask(p.task);
    assert url[|prefix|..] == Branches.MakeBranchForTask(p.task);
    Branches.ParseMakeRoundTrip(p.task);
    url
  }

  /** The statement page of a task. */
  function MakeTaskURL(c: Client, task: string): (url: string)
    ensures HasPrefix(url, c.config.taskUrlPrefix + "/")
    ensures url[|c.config.taskUrlPrefix| + 1..] == task
  {
    c.config.taskUrlPrefix + "/" + task
  }

  /** The guard that runs before any remote call: a user without both a
      Gitea id and login is refused; otherwise the repository to set up is named. */
  function InitializeProject(c: Client, user: User): (r: Result<string>)
    ensures r.Failure? <==> user.giteaId.None? || user.giteaLogin.None?
    ensures r.Failure? ==> r.error == "Empty gitea user"
    ensures r.Success? ==> r.value == MakeProjectName(c, user)
  {
    if user.giteaId.None? || user.giteaLogin.None? then Failure("Empty gitea user")
    else Success(MakeProjectName(c, user))
  }

  /** The name parts can be read back after the group prefix, because the
      cleaned first and last names hold no '-'. */
  lemma ProjectNameParts(c: Client, user: User)
    requires user.giteaLogin.Some?
    ensures HasPrefix(MakeProjectName(c, user), user.groupName + "-")
    ensures
      var first := CleanupName(c.translit, user.firstName);
      var last := CleanupName(c.translit, user.lastName);
      var login := CleanupLogin(user.giteaLogin.value);
      var rest := MakeProjectName(c, user)[|user.groupName| + 1..];
      SplitAtDash(rest) == (first, last + "-" + login) &&
      SplitAtDash(SplitAtDash(rest).1) == (last, login)
  {
    var first := CleanupName(c.translit, user.firstName);
    var last := CleanupName(c.translit, user.lastName);
    var login := CleanupLogin(user.giteaLogin.value);
    var name := MakeProjectName(c, user);
    assert name == user.groupName + "-" + (first + "-" + (last + "-" + login));
    assert name[|user.groupName| + 1..] == first + "-" + (last + "-" + login);
    SplitAtDashJoin(first, last + "-" + login);
    SplitAtDashJoin(last, login);
  }

  /** Every link of a student's repository lives under the project URL, which
      is the base URL followed by the namespaced repository path. */
  lemma LinksExtendProjectURL(c: Client, user: User, p: Pipeline)
    requires user.giteaLogin.Some?
    ensures MakeProjectURL(c, user) == c.config.baseUrl + "/" + MakeProjectWithNamespace(c, MakeProjectName(c, user))
    ensures MakeProjectSubmitsURL(c, user) == MakeProjectURL(c, user) + "/actions"
    ensures MakePipelineURL(c, user, p) == MakeProjectURL(c, user) + "/actions/runs/" + IntToString(p.id)
    ensures MakeBranchURL(c, user, p) == MakeProjectURL(c, user) + "/src/branch/" + p.task
  {
    var base, org, name := c.config.baseUrl, c.config.organizationName, MakeProjectName(c, user);
    var url := MakeProjectURL(c, user);
    JoinPath(base, org, name);
    assert url == base + "/" + org + "/" + name;
    assert MakeProjectWithNamespace(c, name) == org + "/" + name;
    assert MakePipelineURL(c, user, p) == url + "/actions/runs/" + IntToString(p.id);
    assert MakeBranchURL(c, user, p) == url + "/src/branch/" + p.task;
  }

  /** For a pipeline of a submit branch, the written branch link never names
      that branch: it is 8 characters shorter than the link to `submits/<task>`. */
  lemma BranchURLMissesSubmitBranch(c: Client, user: User, p: Pipeline)
    requires user.giteaLogin.Some?
    ensures MakeBranchURL(c, user, p) != MakeProjectURL(c, user) + "/src/branch/" + Branches.MakeBranchForTask(p.task)
    ensures MakeBranchURL(c, user, p) != MakeSubmitBranchURL(c, user, p)
  {
    LinksExtendProjectURL(c, user, p);
    assert |MakeSubmitBranchURL(c, user, p)| == |MakeBranchURL(c, user, p)| + 8;
  }
}
