/** The course definition of one student group
    (internal/deadlines/deadlines.go): task groups with their deadlines, the
    scoring block, and the lookup tables `buildScoringGroups` derives from it. */
module Deadlines {
  import opened Wrappers
  import opened Dates
  import opened Scoring

  datatype Task = Task(task: string, score: int, crashme: bool)

  datatype TaskGroup = TaskGroup(title: string, group: string, deadline: Date, start: Date, tasks: seq<Task>)

  // ------------------------------------------------------------- sums

  /** The sum of the task scores of a task group. */
  function TaskTotal(tasks: seq<Task>): int {
    if tasks == [] then 0 else TaskTotal(tasks[..|tasks| - 1]) + tasks[|tasks| - 1].score
  }

  /** The scoring-group name a task group resolves to: its own `Group`, or
      the default group when that is empty. */
  function ScoringGroupName(g: TaskGroup, defaultGroup: string): (name: string)
    ensures g.group != "" ==> name == g.group
    ensures g.group == "" ==> name == defaultGroup
  {
    if g.group == "" then defaultGroup else g.group
  }

  /** The task scores of all task groups that resolve to `name`. */
  function ResolvedTotal(assignments: seq<TaskGroup>, defaultGroup: string, name: string): int {
    if assignments == [] then 0
    else
      var last := assignments[|assignments| - 1];
      ResolvedTotal(assignments[..|assignments| - 1], defaultGroup, name)
        + (if ScoringGroupName(last, defaultGroup) == name then TaskTotal(last.tasks) else 0)
  }

  // ------------------------------------------------------- lookup tables

  /** Name to index of the scoring group, filled in order so that the last
      entry with a name wins. */
  function GroupsMap(gs: seq<ScoringGroup>): (m: map<string, nat>)
    ensures forall k :: k in m ==> m[k] < |gs| && gs[m[k]].name == k
    ensures forall i :: 0 <= i < |gs| ==> gs[i].name in m && i <= m[gs[i].name]
  {
    if gs == [] then map[]
    else GroupsMap(gs[..|gs| - 1])[gs[|gs| - 1].name := |gs| - 1]
  }

  /** Name to policy, filled in order so that the last entry with a name wins. */
  function PoliciesMap(ps: seq<PolicySpec>): (m: map<string, Option<Policy>>)
    ensures forall k :: k in m <==> exists i :: 0 <= i < |ps| && ps[i].name == k
    ensures |ps| > 0 ==> m[ps[|ps| - 1].name] == ps[|ps| - 1].policy
  {
    if ps == [] then map[]
    else PoliciesMap(ps[..|ps| - 1])[ps[|ps| - 1].name := ps[|ps| - 1].policy]
  }

  /** The last scoring group of a name, searched from the back. */
  function LastGroupNamed(gs: seq<ScoringGroup>, name: string): Option<ScoringGroup> {
    if gs == [] then None
    else if gs[|gs| - 1].name == name then Some(gs[|gs| - 1])
    else LastGroupNamed(gs[..|gs| - 1], name)
  }

  /** The policy of the last policy entry of a name, searched from the back;
      None when no entry has that name. */
  function LastPolicyNamed(ps: seq<PolicySpec>, name: string): Option<Option<Policy>> {
    if ps == [] then None
    else if ps[|ps| - 1].name == name then Some(ps[|ps| - 1].policy)
    else LastPolicyNamed(ps[..|ps| - 1], name)
  }

  /** The groups table finds the last scoring group of each name. */
  lemma {:induction false} GroupsMapFindsLast(gs: seq<ScoringGroup>, name: string)
    ensures var m := GroupsMap(gs);
      LastGroupNamed(gs, name) == if name in m then Some(gs[m[name]]) else None
    decreases |gs|
  {
    if gs != [] {
      var init := gs[..|gs| - 1];
      GroupsMapFindsLast(init, name);
      var m := GroupsMap(init);
      if name in m {
        assert gs[m[name]] == init[m[name]];
      }
    }
  }

  /** The policies table finds the policy of the last entry of each name. */
  lemma {:induction false} PoliciesMapFindsLast(ps: seq<PolicySpec>, name: string)
    ensures var m := PoliciesMap(ps);
      LastPolicyNamed(ps, name) == if name in m then Some(m[name]) else None
    decreases |ps|
  {
    if ps != [] {
      PoliciesMapFindsLast(ps[..|ps| - 1], name);
    }
  }

  predicate IndexesInto(gm: map<string, nat>, gs: seq<ScoringGroup>) {
    forall k :: k in gm ==> gm[k] < |gs| && gs[gm[k]].name == k
  }

  /** Whether the groups map sends `name` to a group whose MaxScore is unset. */
  predicate Summed(gm: map<string, nat>, gs: seq<ScoringGroup>, name: string)
    requires IndexesInto(gm, gs)
  {
    name in gm && gs[gm[name]].maxScore == 0
  }

  /** The `maxScores` table accumulated over the task groups. */
  function MaxScoresOf(assignments: seq<TaskGroup>, gm: map<string, nat>, gs: seq<ScoringGroup>, defaultGroup: string): map<string, int>
    requires IndexesInto(gm, gs)
  {
    if assignments == [] then map[]
    else
      var m := MaxScoresOf(assignments[..|assignments| - 1], gm, gs, defaultGroup);
      var last := assignments[|assignments| - 1];
      var name := ScoringGroupName(last, defaultGroup);
      if Summed(gm, gs, name) then m[name := (if name in m then m[name] else 0) + TaskTotal(last.tasks)]
      else m
  }

  /** Only names whose group has an unset MaxScore are summed, and each sum
      is the resolved total of that name. */
  lemma {:induction false} MaxScoresOfTotals(assignments: seq<TaskGroup>, gm: map<string, nat>, gs: seq<ScoringGroup>, defaultGroup: string, name: string)
    requires IndexesInto(gm, gs)
    ensures var m := MaxScoresOf(assignments, gm, gs, defaultGroup);
      (name in m ==> Summed(gm, gs, name) && m[name] == ResolvedTotal(assignments, defaultGroup, name)) &&
      (name !in m && Summed(gm, gs, name) ==> ResolvedTotal(assignments, defaultGroup, name) == 0)
    decreases |assignments|
  {
    if assignments != [] {
      MaxScoresOfTotals(assignments[..|assignments| - 1], gm, gs, defaultGroup, name);
    }
  }

  /** The scoring groups after `buildScoringGroups`: the entry a name
      resolves to gets the resolved total of its task groups when its
      MaxScore is unset; every other entry is unchanged. */
  function BuiltGroups(assignments: seq<TaskGroup>, gs: seq<ScoringGroup>, defaultGroup: string): (r: seq<ScoringGroup>)
    ensures |r| == |gs|
    ensures forall i :: 0 <= i < |gs| ==> r[i].name == gs[i].name && r[i].weight == gs[i].weight && r[i].policy == gs[i].policy
    ensures forall i :: 0 <= i < |gs| && gs[i].maxScore != 0 ==> r[i] == gs[i]
  {
    var gm := GroupsMap(gs);
    seq(|gs|, i requires 0 <= i < |gs| =>
      if gm[gs[i].name] == i && gs[i].maxScore == 0
      then gs[i].(maxScore := ResolvedTotal(assignments, defaultGroup, gs[i].name))
      else gs[i])
  }

  lemma {:induction false} GroupsMapByNames(gs: seq<ScoringGroup>, hs: seq<ScoringGroup>)
    requires |gs| == |hs| && forall i :: 0 <= i < |gs| ==> gs[i].name == hs[i].name
    ensures GroupsMap(gs) == GroupsMap(hs)
    decreases |gs|
  {
    if gs != [] {
      GroupsMapByNames(gs[..|gs| - 1], hs[..|hs| - 1]);
    }
  }

  /** Building the scoring groups twice gives the same MaxScores as once. */
  lemma BuiltGroupsIdempotent(assignments: seq<TaskGroup>, gs: seq<ScoringGroup>, defaultGroup: string)
    ensures BuiltGroups(assignments, BuiltGroups(assignments, gs, defaultGroup), defaultGroup)
         == BuiltGroups(assignments, gs, defaultGroup)
  {
    var once := BuiltGroups(assignments, gs, defaultGroup);
    GroupsMapByNames(gs, once);
  }

  /** Of two scoring groups with one name, only the later one is resolved to
      and summed; the earlier keeps its configured MaxScore. */
  lemma LaterGroupWins(assignments: seq<TaskGroup>, gs: seq<ScoringGroup>, defaultGroup: string, i: nat, j: nat)
    requires i < j < |gs| && gs[i].name == gs[j].name
    ensures BuiltGroups(assignments, gs, defaultGroup)[i] == gs[i]
  {
    var gm := GroupsMap(gs);
    assert j <= gm[gs[j].name];
  }

  // ---------------------------------------------------------- the object

  class Deadlines {
    var assignments: seq<TaskGroup>
    var scoring: ScoringBlock
    var policies: map<string, Option<Policy>>
    var groups: map<string, nat>

    /** Every name in the groups table points at a scoring group of that name. */
    predicate Valid()
      reads this
    {
      IndexesInto(groups, scoring.groups)
    }

    /** Both lookup tables are the ones `buildScoringGroups` derives from
        the scoring block. */
    predicate Indexed()
      reads this
    {
      policies == PoliciesMap(scoring.policies) && groups == GroupsMap(scoring.groups)
    }

    /** A freshly decoded course definition, with empty lookup tables. */
    constructor (assignments: seq<TaskGroup>, scoring: ScoringBlock)
      ensures this.assignments == assignments && this.scoring == scoring
      ensures policies == map[] && groups == map[]
      ensures Valid()
    {
      this.assignments := assignments;
      this.scoring := scoring;
      policies := map[];
      groups := map[];
    }

    /** The scoring group a task group belongs to, or None when its name is
        not in the groups table. */
    function GetScoringGroup(group: TaskGroup): (r: Option<ScoringGroup>)
      reads this
      requires Valid()
      ensures r.Some? <==> ScoringGroupName(group, scoring.defaultGroup) in groups
      ensures r.Some? ==> r.value.name == ScoringGroupName(group, scoring.defaultGroup)
      ensures r.Some? ==> r.value == scoring.groups[groups[ScoringGroupName(group, scoring.defaultGroup)]]
    {
      var name := ScoringGroupName(group, scoring.defaultGroup);
      if name in groups then Some(scoring.groups[groups[name]]) else None
    }

    /** The policy of a task group's scoring group; None when the scoring
        group is unknown, its policy name is not registered, or the
        registered policy is itself missing. */
    function GetScoringPolicy(group: TaskGroup): (r: Option<Policy>)
      reads this
      requires Valid()
      ensures GetScoringGroup(group).None? ==> r.None?
      ensures GetScoringGroup(group).Some? && GetScoringGroup(group).value.policy !in policies ==> r.None?
      ensures r.Some? ==> GetScoringGroup(group).Some? && policies[GetScoringGroup(group).value.policy] == r
      ensures GetScoringGroup(group).Some? && GetScoringGroup(group).value.policy in policies ==>
        r == policies[GetScoringGroup(group).value.policy]
    {
      var g := GetScoringGroup(group);
      if g.None? then None
      else if g.value.policy !in policies then None
      else policies[g.value.policy]
    }

    /** With tables derived from the scoring block, a task group's scoring
        group is the last one configured under its resolved name, and its
        policy is that of the last policy entry named by the group. */
    lemma LookupFindsLast(group: TaskGroup)
      requires Indexed()
      ensures Valid()
      ensures GetScoringGroup(group) == LastGroupNamed(scoring.groups, ScoringGroupName(group, scoring.defaultGroup))
      ensures GetScoringGroup(group).Some? ==>
        var p := LastPolicyNamed(scoring.policies, GetScoringGroup(group).value.policy);
        GetScoringPolicy(group) == if p.Some? then p.value else None
    {
      GroupsMapFindsLast(scoring.groups, ScoringGroupName(group, scoring.defaultGroup));
      var g := GetScoringGroup(group);
      if g.Some? {
        PoliciesMapFindsLast(scoring.policies, g.value.policy);
      }
    }

    /** Whether any task group lists a task of this name. */
    function HasTask(name: string): (r: bool)
      reads this
      ensures r <==> exists i, j :: 0 <= i < |assignments| && 0 <= j < |assignments[i].tasks|
                                     && assignments[i].tasks[j].task == name
    {
      AnyTaskNamed(assignments, name)
    }

    /** `buildScoringGroups`: fills the policies and groups tables from the
        scoring block and writes each summed MaxScore into its scoring group.
        It never fails. */
    method BuildScoringGroups() returns (err: Option<string>)
      modifies this
      ensures err.None?
      ensures assignments == old(assignments)
      ensures policies == PoliciesMap(old(scoring).policies)
      ensures groups == GroupsMap(old(scoring).groups)
      ensures scoring == old(scoring).(groups := BuiltGroups(assignments, old(scoring).groups, old(scoring).defaultGroup))
      ensures Valid() && Indexed()
    {
      policies := FillPolicies(scoring.policies);
      groups := FillGroups(scoring.groups);
      var maxScores := AccumulateMaxScores();
      ghost var configured := scoring.groups;
      WriteMaxScores(maxScores);
      GroupsMapByNames(configured, scoring.groups);
      return None;
    }

    /** The loop over the task groups that sums the scores of each group
        resolving to a scoring group with an unset MaxScore. */
    method AccumulateMaxScores() returns (maxScores: map<string, int>)
      requires Valid()
      ensures maxScores == MaxScoresOf(assignments, groups, scoring.groups, scoring.defaultGroup)
    {
      maxScores := map[];
      var i := 0;
      while i < |assignments|
        invariant 0 <= i <= |assignments|
        invariant maxScores == MaxScoresOf(assignments[..i], groups, scoring.groups, scoring.defaultGroup)
      {
        assert assignments[..i + 1][..i] == assignments[..i];
        var g := GetScoringGroup(assignments[i]);
        if g.Some? && g.value.maxScore == 0 {
          var total := SumTasks(assignments[i].tasks);
          var name := g.value.name;
          maxScores := maxScores[name := (if name in maxScores then maxScores[name] else 0) + total];
        }
        i := i + 1;
      }
      assert assignments[..|assignments|] == assignments;
    }

    /** Writes every accumulated sum through the groups table into its scoring group. */
    method WriteMaxScores(maxScores: map<string, int>)
      requires Valid()
      requires maxScores == MaxScoresOf(assignments, groups, scoring.groups, scoring.defaultGroup)
      requires groups == GroupsMap(scoring.groups)
      modifies this
      ensures assignments == old(assignments) && policies == old(policies) && groups == old(groups)
      ensures scoring == old(scoring).(groups := BuiltGroups(assignments, old(scoring).groups, old(scoring).defaultGroup))
      ensures Valid()
    {
      forall key | key in maxScores
        ensures key in groups
      {
        MaxScoresOfTotals(assignments, groups, scoring.groups, scoring.defaultGroup, key);
      }
      var written := WriteBack(scoring.groups, groups, maxScores);
      WrittenIsBuilt(assignments, scoring.groups, scoring.defaultGroup);
      scoring := scoring.(groups := written);
    }
  }

  /** The scoring groups once the sums of the names in `done` are written. */
  ghost function Written(gs: seq<ScoringGroup>, gm: map<string, nat>, ms: map<string, int>, done: set<string>): (r: seq<ScoringGroup>)
    ensures |r| == |gs|
  {
    seq(|gs|, k requires 0 <= k < |gs| =>
      var name := gs[k].name;
      if name in done && name in ms && name in gm && gm[name] == k then gs[k].(maxScore := ms[name]) else gs[k])
  }

  lemma WrittenStep(gs: seq<ScoringGroup>, gm: map<string, nat>, ms: map<string, int>, done: set<string>, key: string)
    requires IndexesInto(gm, gs) && key in gm && key in ms
    ensures var w := Written(gs, gm, ms, done);
      w[gm[key] := w[gm[key]].(maxScore := ms[key])] == Written(gs, gm, ms, done + {key})
  {
  }

  /** Writing every accumulated sum gives the built scoring groups. */
  lemma WrittenIsBuilt(assignments: seq<TaskGroup>, gs: seq<ScoringGroup>, defaultGroup: string)
    ensures var gm := GroupsMap(gs);
      var ms := MaxScoresOf(assignments, gm, gs, defaultGroup);
      Written(gs, gm, ms, ms.Keys) == BuiltGroups(assignments, gs, defaultGroup)
  {
    var gm := GroupsMap(gs);
    var ms := MaxScoresOf(assignments, gm, gs, defaultGroup);
    forall k | 0 <= k < |gs|
      ensures Written(gs, gm, ms, ms.Keys)[k] == BuiltGroups(assignments, gs, defaultGroup)[k]
    {
      MaxScoresOfTotals(assignments, gm, gs, defaultGroup, gs[k].name);
    }
  }

  /** The `for k, v := range maxScores` loop, on the scoring groups as values. */
  method WriteBack(gs: seq<ScoringGroup>, gm: map<string, nat>, ms: map<string, int>) returns (r: seq<ScoringGroup>)
    requires IndexesInto(gm, gs)
    requires forall key :: key in ms ==> key in gm
    ensures r == Written(gs, gm, ms, ms.Keys)
  {
    r := gs;
    var keys := ms.Keys;
    while keys != {}
      invariant keys <= ms.Keys
      invariant r == Written(gs, gm, ms, ms.Keys - keys)
      decreases keys
    {
      var key :| key in keys;
      WrittenStep(gs, gm, ms, ms.Keys - keys, key);
      assert (ms.Keys - keys) + {key} == ms.Keys - (keys - {key});
      r := r[gm[key] := r[gm[key]].(maxScore := ms[key])];
      keys := keys - {key};
    }
  }

  method FillPolicies(ps: seq<PolicySpec>) returns (pm: map<string, Option<Policy>>)
    ensures pm == PoliciesMap(ps)
  {
    pm := map[];
    var i := 0;
    while i < |ps|
      invariant 0 <= i <= |ps|
      invariant pm == PoliciesMap(ps[..i])
    {
      assert ps[..i + 1][..i] == ps[..i];
      pm := pm[ps[i].name := ps[i].policy];
      i := i + 1;
    }
    assert ps[..|ps|] == ps;
  }

  method FillGroups(gs: seq<ScoringGroup>) returns (gm: map<string, nat>)
    ensures gm == GroupsMap(gs)
  {
    gm := map[];
    var i := 0;
    while i < |gs|
      invariant 0 <= i <= |gs|
      invariant gm == GroupsMap(gs[..i])
    {
      assert gs[..i + 1][..i] == gs[..i];
      gm := gm[gs[i].name := i];
      i := i + 1;
    }
    assert gs[..|gs|] == gs;
  }

  method SumTasks(tasks: seq<Task>) returns (total: int)
    ensures total == TaskTotal(tasks)
  {
    total := 0;
    var j := 0;
    while j < |tasks|
      invariant 0 <= j <= |tasks|
      invariant total == TaskTotal(tasks[..j])
    {
      assert tasks[..j + 1][..j] == tasks[..j];
      total := total + tasks[j].score;
      j := j + 1;
    }
    assert tasks[..|tasks|] == tasks;
  }

  /** Whether some task group in `assignments` lists a task named `name`. */
  function AnyTaskNamed(assignments: seq<TaskGroup>, name: string): (r: bool)
    ensures r <==> exists i, j :: 0 <= i < |assignments| && 0 <= j < |assignments[i].tasks|
                                   && assignments[i].tasks[j].task == name
  {
    if assignments == [] then false
    else ListsTask(assignments[0].tasks, name) || AnyTaskNamed(assignments[1..], name)
  }

  function ListsTask(tasks: seq<Task>, name: string): (r: bool)
    ensures r <==> exists j :: 0 <= j < |tasks| && tasks[j].task == name
  {
    if tasks == [] then false else tasks[0].task == name || ListsTask(tasks[1..], name)
  }
}
