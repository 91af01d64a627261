/** The command-line client of the web API (pkg/client/notmanytask/client.go):
    how a reply becomes a value or an error, and the list of students who
    solved a task. The HTTP exchange is the parameter `reply`: a transport
    error, or the decoded body with its `ok` flag. */
module Client {
  import opened Wrappers
  import opened Models
  import R = Results

  /** A decoded API reply: `ok`, the server's error text and the payload. */
  datatype Reply<T> = Reply(ok: bool, error: string, body: T)

  /** The mapping every call shares: a transport error as it is, a reply
      that is not ok as the call's message followed by the server's error,
      and otherwise the payload. */
  function Unwrap<T>(reply: Result<Reply<T>>, message: string): (r: Result<T>)
    ensures r.Success? <==> reply.Success? && reply.value.ok
    ensures r.Success? ==> r.value == reply.value.body
    ensures reply.Failure? ==> r.error == reply.error
    ensures reply.Success? && !reply.value.ok ==>
      r.error == message + reply.value.error
  {
    if reply.Failure? then Failure(reply.error)
    else if !reply.value.ok then Failure(message + reply.value.error)
    else Success(reply.value.body)
  }

  /** `LoadStandings`. */
  function LoadStandings(reply: Result<Reply<R.Standings>>): (r: Result<R.Standings>)
    ensures r.Success? <==> reply.Success? && reply.value.ok
    ensures r.Success? ==> r.value == reply.value.body
    ensures reply.Failure? ==> r == Failure(reply.error)
    ensures reply.Success? && !reply.value.ok ==>
      r.error == "failed to fetch standings: " + reply.value.error
  {
    Unwrap(reply, "failed to fetch standings: ")
  }

  /** `LoadUsers`. */
  function LoadUsers(reply: Result<Reply<seq<User>>>): (r: Result<seq<User>>)
    ensures r.Success? <==> reply.Success? && reply.value.ok
    ensures r.Success? ==> r.value == reply.value.body
    ensures reply.Failure? ==> r == Failure(reply.error)
    ensures reply.Success? && !reply.value.ok ==>
      r.error == "failed to fetch group members: " + reply.value.error
  {
    Unwrap(reply, "failed to fetch group members: ")
  }

  /** The body `OverrideScore` posts. */
  datatype OverrideRequest = OverrideRequest(token: string, task: string, login: string, score: int, status: string)

  /** `OverrideScore`: the request carries the client's token and the
      arguments; only the error of the exchange `post`, if any, is kept. */
  function OverrideScore(token: string, user: string, task: string, status: string, score: int,
                         post: OverrideRequest -> Result<Reply<()>>): (err: Option<string>)
    ensures var reply := post(OverrideRequest(token, task, user, score, status));
      && (err.None? <==> reply.Success? && reply.value.ok)
      && (reply.Failure? ==> err == Some(reply.error))
      && (reply.Success? && !reply.value.ok ==> err == Some("failed to override score: " + reply.value.error))
  {
    var r := Unwrap(post(OverrideRequest(token, task, user, score, status)), "failed to override score: ");
    if r.Success? then None else Some(r.error)
  }

  // ------------------------------------------------------------ submits

  /** A task occurrence the filter keeps: the name asked for, solved, and
      worth more than nothing. */
  predicate Solved(t: R.ScoredTask, taskname: string) {
    t.task == taskname && t.status == R.TaskStatusSuccess && t.score > 0
  }

  function TaskHits(tasks: seq<R.ScoredTask>, taskname: string): nat {
    if tasks == [] then 0
    else TaskHits(tasks[..|tasks| - 1], taskname) + (if Solved(tasks[|tasks| - 1], taskname) then 1 else 0)
  }

  function GroupHits(groups: seq<R.ScoredTaskGroup>, taskname: string): nat {
    if groups == [] then 0
    else GroupHits(groups[..|groups| - 1], taskname) + TaskHits(groups[|groups| - 1].tasks, taskname)
  }

  function Repeat<T>(x: T, n: nat): (r: seq<T>)
    ensures |r| == n && forall i :: 0 <= i < n ==> r[i] == x
  {
    seq(n, _ => x)
  }

  /** The students of the standings, in order, each once per solved
      occurrence of the task. */
  function Submits(users: seq<R.UserScores>, taskname: string): seq<R.User> {
    if users == [] then []
    else
      var last := users[|users| - 1];
      Submits(users[..|users| - 1], taskname) + Repeat(last.user, GroupHits(last.groups, taskname))
  }

  /** `LoadSuccessfulSubmits`: the standings' error as it is, otherwise the
      triple loop over students, their groups and the groups' tasks. */
  method LoadSuccessfulSubmits(reply: Result<Reply<R.Standings>>, taskname: string) returns (r: Result<seq<R.User>>)
    ensures LoadStandings(reply).Failure? ==> r == Failure(LoadStandings(reply).error)
    ensures LoadStandings(reply).Success? ==> r == Success(Submits(LoadStandings(reply).value.users, taskname))
  {
    var standings := LoadStandings(reply);
    if standings.Failure? {
      return Failure(standings.error);
    }
    var users := standings.value.users;
    var res: seq<R.User> := [];
    for i := 0 to |users|
      invariant res == Submits(users[..i], taskname)
    {
      var user := users[i];
      res := CollectUser(res, user, taskname);
      assert users[..i + 1][..i] == users[..i];
    }
    assert users[..|users|] == users;
    return Success(res);
  }

  /** The two inner loops for one student. */
  method CollectUser(prefix: seq<R.User>, user: R.UserScores, taskname: string) returns (res: seq<R.User>)
    ensures res == prefix + Repeat(user.user, GroupHits(user.groups, taskname))
  {
    res := prefix;
    var hits := 0;
    for j := 0 to |user.groups|
      invariant hits == GroupHits(user.groups[..j], taskname)
      invariant res == prefix + Repeat(user.user, hits)
    {
      var tasks := user.groups[j].tasks;
      for k := 0 to |tasks|
        invariant hits == GroupHits(user.groups[..j], taskname) + TaskHits(tasks[..k], taskname)
        invariant res == prefix + Repeat(user.user, hits)
      {
        assert tasks[..k + 1][..k] == tasks[..k];
        if tasks[k].task != taskname {
          continue;
        }
        if tasks[k].status != R.TaskStatusSuccess || tasks[k].score <= 0 {
          continue;
        }
        res := res + [user.user];
        hits := hits + 1;
      }
      assert tasks[..|tasks|] == tasks;
      assert user.groups[..j + 1][..j] == user.groups[..j];
    }
    assert user.groups[..|user.groups|] == user.groups;
  }

  /** A task list yields something exactly when some occurrence is solved. */
  lemma {:induction false} TaskHitsPositive(tasks: seq<R.ScoredTask>, taskname: string)
    ensures TaskHits(tasks, taskname) > 0 <==> exists t :: 0 <= t < |tasks| && Solved(tasks[t], taskname)
    decreases |tasks|
  {
    if tasks != [] {
      var init := tasks[..|tasks| - 1];
      TaskHitsPositive(init, taskname);
      if exists t :: 0 <= t < |init| && Solved(init[t], taskname) {
        var t :| 0 <= t < |init| && Solved(init[t], taskname);
        assert tasks[t] == init[t];
      }
      if exists t :: 0 <= t < |tasks| && Solved(tasks[t], taskname) {
        var t :| 0 <= t < |tasks| && Solved(tasks[t], taskname);
        if t < |init| {
          assert init[t] == tasks[t];
        }
      }
    }
  }

  /** A student's groups yield something exactly when some group holds a
      solved occurrence. */
  lemma {:induction false} GroupHitsPositive(groups: seq<R.ScoredTaskGroup>, taskname: string)
    ensures GroupHits(groups, taskname) > 0 <==>
      exists g, t :: 0 <= g < |groups| && 0 <= t < |groups[g].tasks| && Solved(groups[g].tasks[t], taskname)
    decreases |groups|
  {
    if groups != [] {
      var init := groups[..|groups| - 1];
      var last := groups[|groups| - 1];
      GroupHitsPositive(init, taskname);
      TaskHitsPositive(last.tasks, taskname);
      if exists g, t :: 0 <= g < |init| && 0 <= t < |init[g].tasks| && Solved(init[g].tasks[t], taskname) {
        var g, t :| 0 <= g < |init| && 0 <= t < |init[g].tasks| && Solved(init[g].tasks[t], taskname);
        assert groups[g] == init[g];
      }
      if exists g, t :: 0 <= g < |groups| && 0 <= t < |groups[g].tasks| && Solved(groups[g].tasks[t], taskname) {
        var g, t :| 0 <= g < |groups| && 0 <= t < |groups[g].tasks| && Solved(groups[g].tasks[t], taskname);
        if g < |init| {
          assert init[g] == groups[g];
        }
      }
    }
  }

  /** A student is listed exactly when one of their tasks of that name is
      solved with a positive score. */
  lemma {:induction false} SubmitsMembers(users: seq<R.UserScores>, taskname: string, who: R.User)
    ensures who in Submits(users, taskname) <==>
      exists i :: 0 <= i < |users| && users[i].user == who && GroupHits(users[i].groups, taskname) > 0
    decreases |users|
  {
    if users != [] {
      var n := |users|;
      var init, last := users[..n - 1], users[n - 1];
      var k := GroupHits(last.groups, taskname);
      var front, tail := Submits(init, taskname), Repeat(last.user, k);
      assert Submits(users, taskname) == front + tail;
      SubmitsMembers(init, taskname, who);
      RepeatMember(last.user, k, who);
      assert who in front + tail <==> who in front || who in tail;
      ListedSplit(users, init, taskname, who);
    }
  }

  lemma RepeatMember(x: R.User, k: nat, who: R.User)
    ensures who in Repeat(x, k) <==> k > 0 && who == x
  {
    if k > 0 {
      assert Repeat(x, k)[0] == x;
    }
  }

  /** Some student of a non-empty standings solved the task exactly when one
      of the first part did or the last one did. */
  lemma ListedSplit(users: seq<R.UserScores>, init: seq<R.UserScores>, taskname: string, who: R.User)
    requires users != [] && init == users[..|users| - 1]
    ensures (exists i :: 0 <= i < |users| && users[i].user == who && GroupHits(users[i].groups, taskname) > 0) <==>
      (exists i :: 0 <= i < |init| && init[i].user == who && GroupHits(init[i].groups, taskname) > 0)
      || (users[|users| - 1].user == who && GroupHits(users[|users| - 1].groups, taskname) > 0)
  {
    if exists i :: 0 <= i < |init| && init[i].user == who && GroupHits(init[i].groups, taskname) > 0 {
      var i :| 0 <= i < |init| && init[i].user == who && GroupHits(init[i].groups, taskname) > 0;
      assert users[i] == init[i];
    }
    if exists i :: 0 <= i < |users| && users[i].user == who && GroupHits(users[i].groups, taskname) > 0 {
      var i :| 0 <= i < |users| && users[i].user == who && GroupHits(users[i].groups, taskname) > 0;
      if i < |init| {
        assert init[i] == users[i];
      }
    }
  }

  /** The list follows the standings: the students of a longer standings
      come after those of its first part. */
  lemma {:induction false} SubmitsAppend(a: seq<R.UserScores>, b: seq<R.UserScores>, taskname: string)
    ensures Submits(a + b, taskname) == Submits(a, taskname) + Submits(b, taskname)
    decreases |b|
  {
    if b == [] {
      assert a + b == a;
    } else {
      var init := b[..|b| - 1];
      SubmitsAppend(a, init, taskname);
      assert (a + b)[..|a + b| - 1] == a + init;
      assert (a + b)[|a + b| - 1] == b[|b| - 1];
    }
  }

  /** A student is listed exactly when some group of theirs holds an
      occurrence of the task that is solved with a positive score; tasks of
      another name, another status or no score add nothing. */
  lemma SubmittedExactly(users: seq<R.UserScores>, taskname: string, who: R.User)
    ensures who in Submits(users, taskname) <==>
      exists i, g, t :: 0 <= i < |users| && users[i].user == who && 0 <= g < |users[i].groups| &&
        0 <= t < |users[i].groups[g].tasks| && Solved(users[i].groups[g].tasks[t], taskname)
  {
    SubmitsMembers(users, taskname, who);
    forall i | 0 <= i < |users| {
      GroupHitsPositive(users[i].groups, taskname);
    }
  }
}
