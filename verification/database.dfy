/** The record tables behind the scorer (internal/database/database.go), as
    in-memory tables keyed by their primary or unique keys. Each SQL
    statement's `WHERE` and `ON CONFLICT` clause becomes a transition on the
    table; the `DataBase` methods apply it in place. */
module Database {
  import opened Wrappers
  import opened Text
  import opened Models

  const UnknownFlag := "unknown flag"

  /** The error of an insert or update that breaks a unique index. */
  const DuplicateKey := "duplicate key value violates unique constraint"

  function UnknownUser(uid: nat): string {
    "unknown user " + NatToString(uid)
  }

  // --------------------------------------------------------------- pipelines

  /** `INSERT ... ON CONFLICT (id) DO UPDATE SET status`: a new id is
      inserted; for a known id only the status is replaced. */
  function UpsertPipeline(t: map<int, Pipeline>, p: Pipeline): (r: map<int, Pipeline>)
    ensures r.Keys == t.Keys + {p.id}
    ensures forall id :: id in t && id != p.id ==> r[id] == t[id]
    ensures p.id in t ==> r[p.id].id == t[p.id].id && r[p.id].project == t[p.id].project
                          && r[p.id].task == t[p.id].task && r[p.id].startedAt == t[p.id].startedAt
    ensures r[p.id].status == p.status
  {
    if p.id in t then t[p.id := t[p.id].(status := p.status)] else t[p.id := p]
  }

  /** Sending the same pipeline twice stores what sending it once does. */
  lemma UpsertPipelineIdempotent(t: map<int, Pipeline>, p: Pipeline)
    ensures UpsertPipeline(UpsertPipeline(t, p), p) == UpsertPipeline(t, p)
  {
  }

  // ------------------------------------------------------------------- flags

  /** `UPDATE flags SET gitlab_login WHERE id = ? AND gitlab_login IS NULL`,
      failing with "unknown flag" when no row matches. */
  function Claim(t: map<string, Flag>, id: string, login: string): (r: Result<map<string, Flag>>)
    ensures r.Success? <==> id in t && t[id].login.None?
    ensures r.Failure? ==> r.error == UnknownFlag
    ensures r.Success? ==> r.value.Keys == t.Keys && r.value[id] == t[id].(login := Some(login))
    ensures r.Success? ==> forall k :: k in t && k != id ==> r.value[k] == t[k]
  {
    if id in t && t[id].login.None? then Success(t[id := t[id].(login := Some(login))])
    else Failure(UnknownFlag)
  }

  /** A claimed flag is never claimed again nor handed to someone else. */
  lemma ClaimedStaysClaimed(t: map<string, Flag>, id: string, login: string, other: string)
    requires Claim(t, id, login).Success?
    ensures Claim(Claim(t, id, login).value, id, other) == Failure(UnknownFlag)
    ensures forall k :: k in t && t[k].login.Some? ==> Claim(t, id, login).value[k] == t[k]
  {
  }

  /** The ID `CreateFlag` gives a flag of `task` with a fresh UUID. */
  function FlagId(task: string, uuid: string): (id: string)
    ensures |id| == |task| + |uuid| + 8
    ensures HasPrefix(id, "{FLAG-") && id[|id| - 1] == '}'
    ensures id[6..6 + |task|] == task && id[6 + |task|] == '-'
    ensures id[7 + |task|..|id| - 1] == uuid
  {
    "{FLAG-" + task + "-" + uuid + "}"
  }

  // --------------------------------------------------------------- overrides

  /** An override row; `deleted` is the soft-delete mark of `gorm.Model`. */
  datatype OverrideRow = OverrideRow(value: Override, deleted: bool)

  type OverrideKey = (string, string)

  /** `INSERT ... ON CONFLICT (gitlab_login, task) DO UPDATE SET score, status`
      as written: on an existing row, soft-deleted or not, only the score and
      the status change. */
  function PutOverride(t: map<OverrideKey, OverrideRow>, o: Override): (r: map<OverrideKey, OverrideRow>)
    ensures r.Keys == t.Keys + {(o.login, o.task)}
    ensures forall k :: k in t && k != (o.login, o.task) ==> r[k] == t[k]
    ensures r[(o.login, o.task)].value.score == o.score && r[(o.login, o.task)].value.status == o.status
    ensures OverridesKeyed(t) ==> OverridesKeyed(r) && r[(o.login, o.task)].value == o
    ensures (o.login, o.task) in t ==> r[(o.login, o.task)].deleted == t[(o.login, o.task)].deleted
  {
    var key := (o.login, o.task);
    if key in t then t[key := t[key].(value := t[key].value.(score := o.score, status := o.status))]
    else t[key := OverrideRow(o, false)]
  }

  /** The upsert with the soft-delete mark among the updated columns, so a
      removed override comes back. */
  function PutOverrideRestoring(t: map<OverrideKey, OverrideRow>, o: Override): (r: map<OverrideKey, OverrideRow>)
    ensures r.Keys == t.Keys + {(o.login, o.task)}
    ensures forall k :: k in t && k != (o.login, o.task) ==> r[k] == t[k]
    ensures r[(o.login, o.task)] == OverrideRow(o, false)
  {
    t[(o.login, o.task) := OverrideRow(o, false)]
  }

  /** `DELETE ... WHERE gitlab_login = ? AND task = ?`, which `gorm.Model`
      turns into setting `deleted_at` on that row. */
  function DeleteOverride(t: map<OverrideKey, OverrideRow>, login: string, task: string): (r: map<OverrideKey, OverrideRow>)
    ensures r.Keys == t.Keys
    ensures forall k :: k in t && k != (login, task) ==> r[k] == t[k]
    ensures (login, task) in r ==> r[(login, task)].deleted && r[(login, task)].value == t[(login, task)].value
  {
    if (login, task) in t then t[(login, task) := t[(login, task)].(deleted := true)] else t
  }

  /** The overrides queries see: the rows without the soft-delete mark. */
  function VisibleOverrides(t: map<OverrideKey, OverrideRow>): (r: map<OverrideKey, Override>)
    ensures forall k :: k in r <==> k in t && !t[k].deleted
    ensures forall k :: k in r ==> r[k] == t[k].value
  {
    map k | k in t && !t[k].deleted :: t[k].value
  }

  /** Every row sits under its own (login, task) key, so a pair has at most one row. */
  predicate OverridesKeyed(t: map<OverrideKey, OverrideRow>) {
    forall k :: k in t ==> k == (t[k].value.login, t[k].value.task)
  }

  /** As written, an override added again after its removal stays invisible. */
  lemma ReAddedOverrideInvisible(t: map<OverrideKey, OverrideRow>, o: Override)
    ensures var removed := DeleteOverride(PutOverride(t, o), o.login, o.task);
      (o.login, o.task) !in VisibleOverrides(PutOverride(removed, o))
  {
  }

  /** With the restoring upsert, an added override is always the visible one. */
  lemma RestoredOverrideVisible(t: map<OverrideKey, OverrideRow>, o: Override)
    ensures VisibleOverrides(PutOverrideRestoring(t, o))[(o.login, o.task)] == o
    ensures OverridesKeyed(t) ==> OverridesKeyed(PutOverrideRestoring(t, o))
  {
  }

  // ------------------------------------------------------------------- users

  /** Whether a user other than `uid` already holds one of the given account
      values, which the unique indexes on gitlab_id and gitlab_login refuse. */
  predicate AccountTaken(t: map<nat, User>, uid: nat, gitlabId: Option<int>, gitlabLogin: Option<string>) {
    exists k :: k in t && k != uid &&
      ((gitlabId.Some? && t[k].gitlabId == gitlabId) || (gitlabLogin.Some? && t[k].gitlabLogin == gitlabLogin))
  }

  /** `UPDATE users SET gitlab_id, gitlab_login WHERE id = ? AND (gitlab_id
      IS NULL OR gitlab_login IS NULL)`: a unique violation is an error, and
      so is an update that matches no row. */
  function LinkAccount(t: map<nat, User>, uid: nat, gitlabId: Option<int>, gitlabLogin: Option<string>): (r: Result<map<nat, User>>)
    ensures r.Success? <==> uid in t && (t[uid].gitlabId.None? || t[uid].gitlabLogin.None?)
                            && !AccountTaken(t, uid, gitlabId, gitlabLogin)
    ensures r.Failure? && !AccountTaken(t, uid, gitlabId, gitlabLogin) ==> r.error == UnknownUser(uid)
    ensures r.Success? ==> r.value.Keys == t.Keys && forall k :: k in t && k != uid ==> r.value[k] == t[k]
    ensures r.Success? ==> r.value[uid] == t[uid].(gitlabId := gitlabId, gitlabLogin := gitlabLogin)
  {
    var matches := uid in t && (t[uid].gitlabId.None? || t[uid].gitlabLogin.None?);
    if matches && AccountTaken(t, uid, gitlabId, gitlabLogin) then Failure(DuplicateKey)
    else if !matches then Failure(UnknownUser(uid))
    else Success(t[uid := t[uid].(gitlabId := gitlabId, gitlabLogin := gitlabLogin)])
  }

  /** Every user with a repository has both hosting-account values: a
      repository is created only for users `ListUsersWithoutRepos` lists. */
  predicate ReposLinked(t: map<nat, User>) {
    forall k :: k in t && t[k].repository.Some? ==> t[k].gitlabId.Some? && t[k].gitlabLogin.Some?
  }

  /** Linking an account touches only a user that is not fully linked, and
      so has no repository: every user with a repository stays linked. */
  lemma LinkKeepsReposLinked(t: map<nat, User>, uid: nat, gitlabId: Option<int>, gitlabLogin: Option<string>)
    requires ReposLinked(t) && LinkAccount(t, uid, gitlabId, gitlabLogin).Success?
    ensures ReposLinked(LinkAccount(t, uid, gitlabId, gitlabLogin).value)
  {
    assert t[uid].repository.None?;
  }

  /** A user whose accounts are both set can never be relinked. */
  lemma LinkedAccountFixed(t: map<nat, User>, uid: nat, gitlabId: Option<int>, gitlabLogin: Option<string>)
    requires uid in t && t[uid].gitlabId.Some? && t[uid].gitlabLogin.Some?
    ensures LinkAccount(t, uid, gitlabId, gitlabLogin).Failure?
  {
  }

  // ---------------------------------------------------------------- queries

  /** `SELECT` with a `WHERE` condition: every row of the table that meets
      it, once each, in no particular order. */
  method Select<K, V(==)>(t: map<K, V>, cond: V -> bool) returns (rows: seq<V>)
    requires forall k1, k2 :: k1 in t && k2 in t && t[k1] == t[k2] ==> k1 == k2
    ensures forall v :: v in rows <==> v in t.Values && cond(v)
    ensures forall i, j :: 0 <= i < j < |rows| ==> rows[i] != rows[j]
  {
    rows := [];
    var todo := t.Keys;
    while todo != {}
      invariant todo <= t.Keys
      invariant forall v :: v in rows <==> exists k :: k in t && k !in todo && t[k] == v && cond(v)
      invariant forall i, j :: 0 <= i < j < |rows| ==> rows[i] != rows[j]
      decreases todo
    {
      var k :| k in todo;
      if cond(t[k]) {
        rows := rows + [t[k]];
      }
      todo := todo - {k};
    }
  }

  class DataBase {
    var pipelines: map<int, Pipeline>
    var flags: map<string, Flag>
    var overrides: map<OverrideKey, OverrideRow>
    var users: map<nat, User>

    /** Every row sits under its own key. */
    predicate Valid()
      reads this
    {
      (forall id :: id in pipelines ==> pipelines[id].id == id) &&
      (forall id :: id in flags ==> flags[id].id == id) &&
      (forall id :: id in users ==> users[id].id == id) &&
      OverridesKeyed(overrides)
    }

    constructor ()
      ensures pipelines == map[] && flags == map[] && overrides == map[] && users == map[]
      ensures Valid() && ReposLinked(users)
    {
      pipelines := map[];
      flags := map[];
      overrides := map[];
      users := map[];
    }

    method AddPipeline(p: Pipeline) returns (err: Option<string>)
      requires Valid()
      modifies this
      ensures err.None? && Valid()
      ensures pipelines == UpsertPipeline(old(pipelines), p)
      ensures flags == old(flags) && overrides == old(overrides) && users == old(users)
    {
      pipelines := UpsertPipeline(pipelines, p);
      return None;
    }

    /** `CreateFlag` with the UUID and the clock as inputs; an ID already in
        the table breaks the primary key. */
    method CreateFlag(task: string, uuid: string, now: int) returns (r: Result<Flag>)
      requires Valid()
      modifies this
      ensures Valid()
      ensures FlagId(task, uuid) in old(flags) ==> r == Failure(DuplicateKey) && flags == old(flags)
      ensures FlagId(task, uuid) !in old(flags) ==>
        r == Success(Flag(FlagId(task, uuid), task, None, now)) && flags == old(flags)[r.value.id := r.value]
      ensures pipelines == old(pipelines) && overrides == old(overrides) && users == old(users)
    {
      var id := FlagId(task, uuid);
      if id in flags {
        return Failure(DuplicateKey);
      }
      var flag := Flag(id, task, None, now);
      flags := flags[id := flag];
      return Success(flag);
    }

    method SubmitFlag(id: string, login: string) returns (err: Option<string>)
      requires Valid()
      modifies this
      ensures Valid()
      ensures Claim(old(flags), id, login).Failure? ==> err == Some(UnknownFlag) && flags == old(flags)
      ensures Claim(old(flags), id, login).Success? ==> err.None? && flags == Claim(old(flags), id, login).value
      ensures pipelines == old(pipelines) && overrides == old(overrides) && users == old(users)
    {
      var claimed := Claim(flags, id, login);
      if claimed.Failure? {
        return Some(claimed.error);
      }
      flags := claimed.value;
      return None;
    }

    method AddOverride(login: string, task: string, score: int, status: PipelineStatus) returns (err: Option<string>)
      requires Valid()
      modifies this
      ensures err.None? && Valid()
      ensures overrides == PutOverride(old(overrides), Override(login, task, score, status))
      ensures pipelines == old(pipelines) && flags == old(flags) && users == old(users)
    {
      overrides := PutOverride(overrides, Override(login, task, score, status));
      return None;
    }

    method RemoveOverride(login: string, task: string) returns (err: Option<string>)
      requires Valid()
      modifies this
      ensures err.None? && Valid()
      ensures overrides == DeleteOverride(old(overrides), login, task)
      ensures pipelines == old(pipelines) && flags == old(flags) && users == old(users)
    {
      overrides := DeleteOverride(overrides, login, task);
      return None;
    }

    method SetUserGitlabAccount(uid: nat, gitlabId: Option<int>, gitlabLogin: Option<string>) returns (err: Option<string>)
      requires Valid()
      modifies this
      ensures Valid()
      ensures LinkAccount(old(users), uid, gitlabId, gitlabLogin).Failure? ==>
        err == Some(LinkAccount(old(users), uid, gitlabId, gitlabLogin).error) && users == old(users)
      ensures LinkAccount(old(users), uid, gitlabId, gitlabLogin).Success? ==>
        err.None? && users == LinkAccount(old(users), uid, gitlabId, gitlabLogin).value
      ensures pipelines == old(pipelines) && flags == old(flags) && overrides == old(overrides)
      ensures ReposLinked(old(users)) ==> ReposLinked(users)
    {
      var linked := LinkAccount(users, uid, gitlabId, gitlabLogin);
      if linked.Failure? {
        return Some(linked.error);
      }
      if ReposLinked(users) {
        LinkKeepsReposLinked(users, uid, gitlabId, gitlabLogin);
      }
      users := linked.value;
      return None;
    }

    /** Users who have both hosting-account values and no repository yet. */
    method ListUsersWithoutRepos() returns (us: seq<User>)
      requires Valid()
      ensures forall u :: u in us <==>
        u in users.Values && u.repository.None? && u.gitlabId.Some? && u.gitlabLogin.Some?
      ensures forall i, j :: 0 <= i < j < |us| ==> us[i].id != us[j].id
    {
      us := Select(users, (u: User) => u.repository.None? && u.gitlabId.Some? && u.gitlabLogin.Some?);
    }

    /** `UPDATE users SET repository WHERE id = ?`: an update that matches no
        row is an error. A repository given to a user that
        `ListUsersWithoutRepos` lists keeps every user with a repository
        linked. */
    method SetUserRepository(uid: nat, repository: Option<string>) returns (err: Option<string>)
      requires Valid()
      modifies this
      ensures Valid()
      ensures uid !in old(users) ==> err == Some(UnknownUser(uid)) && users == old(users)
      ensures uid in old(users) ==> err.None? && users == old(users)[uid := old(users)[uid].(repository := repository)]
      ensures pipelines == old(pipelines) && flags == old(flags) && overrides == old(overrides)
      ensures (ReposLinked(old(users)) &&
               (uid in old(users) && repository.Some? ==> old(users)[uid].gitlabId.Some? && old(users)[uid].gitlabLogin.Some?))
              ==> ReposLinked(users)
    {
      if uid !in users {
        return Some(UnknownUser(uid));
      }
      users := users[uid := users[uid].(repository := repository)];
      return None;
    }

    /** Flags some student has claimed. */
    method ListSubmittedFlags() returns (fs: seq<Flag>)
      requires Valid()
      ensures forall f :: f in fs <==> f in flags.Values && f.login.Some?
      ensures forall i, j :: 0 <= i < j < |fs| ==> fs[i].id != fs[j].id
    {
      fs := Select(flags, (f: Flag) => f.login.Some?);
    }

    /** Flags claimed by `login`. */
    method ListUserFlags(login: string) returns (fs: seq<Flag>)
      requires Valid()
      ensures forall f :: f in fs <==> f in flags.Values && f.login == Some(login)
      ensures forall i, j :: 0 <= i < j < |fs| ==> fs[i].id != fs[j].id
    {
      fs := Select(flags, (f: Flag) => f.login == Some(login));
    }

    method ListAllPipelines() returns (ps: seq<Pipeline>)
      requires Valid()
      ensures forall p :: p in ps <==> p in pipelines.Values
      ensures forall i, j :: 0 <= i < j < |ps| ==> ps[i].id != ps[j].id
    {
      forall k1, k2 | k1 in pipelines && k2 in pipelines && pipelines[k1] == pipelines[k2]
        ensures k1 == k2
      {
        assert pipelines[k1].id == k1 && pipelines[k2].id == k2;
      }
      ps := Select(pipelines, (p: Pipeline) => true);
      forall i, j | 0 <= i < j < |ps|
        ensures ps[i].id != ps[j].id
      {
        assert ps[i] in pipelines.Values && ps[j] in pipelines.Values;
        var k1 :| k1 in pipelines && pipelines[k1] == ps[i];
        var k2 :| k2 in pipelines && pipelines[k2] == ps[j];
      }
    }

    method ListProjectPipelines(project: string) returns (ps: seq<Pipeline>)
      requires Valid()
      ensures forall p :: p in ps <==> p in pipelines.Values && p.project == project
      ensures forall i, j :: 0 <= i < j < |ps| ==> ps[i].id != ps[j].id
    {
      forall k1, k2 | k1 in pipelines && k2 in pipelines && pipelines[k1] == pipelines[k2]
        ensures k1 == k2
      {
        assert pipelines[k1].id == k1 && pipelines[k2].id == k2;
      }
      ps := Select(pipelines, (p: Pipeline) => p.project == project);
    }

    /** Users of a group who already have a repository. */
    method ListGroupUsers(groupName: string) returns (us: seq<User>)
      requires Valid()
      ensures forall u :: u in us <==> u in users.Values && u.repository.Some? && u.groupName == groupName
      ensures forall i, j :: 0 <= i < j < |us| ==> us[i].id != us[j].id
    {
      us := Select(users, (u: User) => u.repository.Some? && u.groupName == groupName);
    }
  }
}
