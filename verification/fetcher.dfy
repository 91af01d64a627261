/** Loading the course definitions of all student groups
    (internal/deadlines/fetcher.go). The HTTP request and the YAML decoders
    are parameters: `Source.get` answers a URL, `decodeV1` reads a list of
    task groups and `decodeV2` a whole definition. The atomic snapshot is a
    plain field. */
module Fetcher {
  import opened Wrappers
  import opened Scoring
  import D = Deadlines

  /** What `http.Get` and `ioutil.ReadAll` give back. */
  datatype Response = Response(statusCode: int, status: string, body: Result<string>)

  datatype Source = Source(
    get: string -> Result<Response>,
    decodeV1: string -> Option<seq<D.TaskGroup>>,
    decodeV2: string -> Option<(seq<D.TaskGroup>, ScoringBlock)>)

  /** One student group of the course configuration. */
  datatype GroupConfig = GroupConfig(name: string, deadlinesUrl: string, deadlinesFormat: string)

  /** A course definition as data: its task groups and its scoring block. */
  type Definition = (seq<D.TaskGroup>, ScoringBlock)

  const UnmarshalError := "Failed to unmarshal deadlines"

  /** Five days, the decay scale of the v1 default policy, in seconds. */
  const DefaultScale := 5 * 24 * 3600

  /** The scoring block every v1 definition gets. */
  const DefaultScoring := ScoringBlock(
    [PolicySpec("default", "exp", Some(Exponential(DefaultScale, 0.3)))],
    [ScoringGroup("default", 10.0, 0, "default")],
    "default")

  /** A scoring block after `buildScoringGroups`. */
  function Built(assignments: seq<D.TaskGroup>, s: ScoringBlock): ScoringBlock {
    s.(groups := D.BuiltGroups(assignments, s.groups, s.defaultGroup))
  }

  // ------------------------------------------------------------- fetch

  /** The request part of `fetch`: a transport error, a status other than
      200 and a failed read are errors; otherwise the body. */
  function FetchBody(src: Source, url: string): (r: Result<string>)
    ensures r.Success? <==> src.get(url).Success? && src.get(url).value.statusCode == 200
                            && src.get(url).value.body.Success?
    ensures r.Success? ==> r.value == src.get(url).value.body.value
    ensures src.get(url).Success? && src.get(url).value.statusCode != 200 ==>
      r == Failure("Failed to fetch deadlines: " + src.get(url).value.status)
  {
    match src.get(url)
    case Failure(e) => Failure("Failed to fetch deadlines: " + e)
    case Success(resp) =>
      if resp.statusCode != 200 then Failure("Failed to fetch deadlines: " + resp.status)
      else if resp.body.Failure? then Failure("Failed to read response: " + resp.body.error)
      else Success(resp.body.value)
  }

  /** The format switch of `fetch`: "v2" reads a whole definition, "v1" and
      every other format read task groups under the default scoring block. */
  function Decode(src: Source, format: string, body: string): (r: Result<Definition>)
    ensures format == "v2" ==> (r.Success? <==> src.decodeV2(body).Some?)
    ensures format == "v2" && r.Success? ==> r.value == src.decodeV2(body).value
    ensures format != "v2" ==> (r.Success? <==> src.decodeV1(body).Some?)
    ensures format != "v2" && r.Success? ==> r.value == (src.decodeV1(body).value, DefaultScoring)
    ensures r.Failure? ==> r.error == UnmarshalError
  {
    if format == "v2" then
      match src.decodeV2(body)
      case None => Failure(UnmarshalError)
      case Some(def) => Success(def)
    else
      match src.decodeV1(body)
      case None => Failure(UnmarshalError)
      case Some(assignments) => Success((assignments, DefaultScoring))
  }

  /** What `fetch` yields for one group, as data. */
  function Loaded(src: Source, g: GroupConfig): Result<Definition> {
    match FetchBody(src, g.deadlinesUrl)
    case Failure(e) => Failure(e)
    case Success(body) =>
      match Decode(src, g.deadlinesFormat, body)
      case Failure(e) => Failure(e)
      case Success(def) => Success((def.0, Built(def.0, def.1)))
  }

  /** A freshly decoded definition after `buildScoringGroups`, which never fails. */
  method Prepare(assignments: seq<D.TaskGroup>, scoring: ScoringBlock) returns (d: D.Deadlines)
    ensures fresh(d) && d.Valid() && d.Indexed()
    ensures d.assignments == assignments && d.scoring == Built(assignments, scoring)
    ensures d.policies == D.PoliciesMap(scoring.policies) && d.groups == D.GroupsMap(scoring.groups)
  {
    d := new D.Deadlines(assignments, scoring);
    var _ := d.BuildScoringGroups();
  }

  /** `parseV1`: the task groups under the default scoring block. */
  method ParseV1(src: Source, body: string) returns (r: Result<D.Deadlines>)
    ensures r.Failure? <==> src.decodeV1(body).None?
    ensures r.Failure? ==> r.error == UnmarshalError
    ensures r.Success? ==> fresh(r.value) && r.value.Valid() && r.value.Indexed()
    ensures r.Success? ==> r.value.assignments == src.decodeV1(body).value
    ensures r.Success? ==> r.value.scoring == Built(r.value.assignments, DefaultScoring)
    ensures r.Success? ==> r.value.policies == D.PoliciesMap(DefaultScoring.policies)
    ensures r.Success? ==> r.value.groups == D.GroupsMap(DefaultScoring.groups)
  {
    var decoded := src.decodeV1(body);
    if decoded.None? {
      return Failure(UnmarshalError);
    }
    var d := Prepare(decoded.value, DefaultScoring);
    return Success(d);
  }

  /** `parseV2`: the whole definition as decoded. */
  method ParseV2(src: Source, body: string) returns (r: Result<D.Deadlines>)
    ensures r.Failure? <==> src.decodeV2(body).None?
    ensures r.Failure? ==> r.error == UnmarshalError
    ensures r.Success? ==> fresh(r.value) && r.value.Valid() && r.value.Indexed()
    ensures r.Success? ==> r.value.assignments == src.decodeV2(body).value.0
    ensures r.Success? ==> r.value.scoring == Built(r.value.assignments, src.decodeV2(body).value.1)
    ensures r.Success? ==> r.value.policies == D.PoliciesMap(src.decodeV2(body).value.1.policies)
    ensures r.Success? ==> r.value.groups == D.GroupsMap(src.decodeV2(body).value.1.groups)
  {
    var decoded := src.decodeV2(body);
    if decoded.None? {
      return Failure(UnmarshalError);
    }
    var d := Prepare(decoded.value.0, decoded.value.1);
    return Success(d);
  }

  /** `fetch`: request, then parse by format. */
  method Fetch(src: Source, g: GroupConfig) returns (r: Result<D.Deadlines>)
    ensures r.Failure? <==> Loaded(src, g).Failure?
    ensures r.Failure? ==> r.error == Loaded(src, g).error
    ensures r.Success? ==> fresh(r.value) && (r.value.assignments, r.value.scoring) == Loaded(src, g).value
    ensures r.Success? ==> r.value.Valid() && r.value.Indexed()
  {
    var body := FetchBody(src, g.deadlinesUrl);
    if body.Failure? {
      return Failure(body.error);
    }
    match g.deadlinesFormat {
      case "v1" => r := ParseV1(src, body.value);
      case "v2" => r := ParseV2(src, body.value);
      case _ => r := ParseV1(src, body.value);
    }
  }

  // ------------------------------------------------------ the v1 default

  /** Whether a v1 task group counts towards the default scoring group. */
  predicate InDefaultGroup(g: D.TaskGroup) {
    g.group == "" || g.group == "default"
  }

  /** The scores of the task groups that resolve to "default", summed from
      the front. */
  function DefaultTotal(assignments: seq<D.TaskGroup>): int {
    if assignments == [] then 0
    else
      var own := if InDefaultGroup(assignments[0]) then D.TaskTotal(assignments[0].tasks) else 0;
      own + DefaultTotal(assignments[1..])
  }

  lemma {:induction false} DefaultTotalAppend(a: seq<D.TaskGroup>, g: D.TaskGroup)
    ensures DefaultTotal(a + [g]) == DefaultTotal(a) + (if InDefaultGroup(g) then D.TaskTotal(g.tasks) else 0)
    decreases |a|
  {
    if a == [] {
      assert a + [g] == [g];
      assert [g][1..] == [];
    } else {
      assert (a + [g])[0] == a[0];
      assert (a + [g])[1..] == a[1..] + [g];
      DefaultTotalAppend(a[1..], g);
    }
  }

  lemma {:induction false} ResolvedIsDefaultTotal(a: seq<D.TaskGroup>)
    ensures D.ResolvedTotal(a, "default", "default") == DefaultTotal(a)
    decreases |a|
  {
    if a != [] {
      var init := a[..|a| - 1];
      ResolvedIsDefaultTotal(init);
      DefaultTotalAppend(init, a[|a| - 1]);
      assert init + [a[|a| - 1]] == a;
    }
  }

  /** In v1 the one scoring group keeps its name, weight and policy, and its
      MaxScore is the summed score of the task groups whose `group` is empty
      or "default"; every other task group counts nowhere. */
  lemma V1ScoringGroups(assignments: seq<D.TaskGroup>)
    ensures Built(assignments, DefaultScoring).groups
         == [ScoringGroup("default", 10.0, DefaultTotal(assignments), "default")]
  {
    ResolvedIsDefaultTotal(assignments);
    var built := Built(assignments, DefaultScoring).groups;
    assert D.GroupsMap(DefaultScoring.groups)["default"] == 0;
    assert built[0] == ScoringGroup("default", 10.0, DefaultTotal(assignments), "default");
  }

  /** In a v1 definition a task group with an empty or "default" group gets
      the exponential policy with a five-day scale and threshold 0.3; any
      other task group has no scoring group and so no policy. */
  lemma V1ScoringPolicy(d: D.Deadlines, g: D.TaskGroup)
    requires d.scoring == Built(d.assignments, DefaultScoring)
    requires d.policies == D.PoliciesMap(DefaultScoring.policies)
    requires d.groups == D.GroupsMap(DefaultScoring.groups)
    ensures d.Valid()
    ensures d.GetScoringGroup(g).Some? <==> InDefaultGroup(g)
    ensures d.GetScoringPolicy(g) == if InDefaultGroup(g) then Some(Exponential(DefaultScale, 0.3)) else None
  {
    V1ScoringGroups(d.assignments);
    assert d.groups == map["default" := 0];
    assert d.policies == map["default" := Some(Exponential(DefaultScale, 0.3))];
  }

  // ------------------------------------------------------------ reload

  /** The loop of `reload` as data: every group is fetched in order, the
      first failure ends it, and a later group of the same name replaces an
      earlier one. */
  function AllLoaded(src: Source, groups: seq<GroupConfig>): Result<map<string, Definition>> {
    if groups == [] then Success(map[])
    else
      var last := groups[|groups| - 1];
      match AllLoaded(src, groups[..|groups| - 1])
      case Failure(e) => Failure(e)
      case Success(m) =>
        match Loaded(src, last)
        case Failure(e) => Failure(e)
        case Success(def) => Success(m[last.name := def])
  }

  function Names(groups: seq<GroupConfig>): set<string> {
    set g | g in groups :: g.name
  }

  lemma NamesStep(groups: seq<GroupConfig>)
    requires groups != []
    ensures Names(groups) == Names(groups[..|groups| - 1]) + {groups[|groups| - 1].name}
  {
    assert groups == groups[..|groups| - 1] + [groups[|groups| - 1]];
  }

  /** One more group fails the load exactly when the earlier groups or
      this one fail. */
  lemma AllLoadedStepFails(src: Source, groups: seq<GroupConfig>)
    requires groups != []
    ensures AllLoaded(src, groups).Failure? <==>
      AllLoaded(src, groups[..|groups| - 1]).Failure? || Loaded(src, groups[|groups| - 1]).Failure?
  {
  }

  /** The error is the earlier one, else this group's. */
  lemma AllLoadedStepError(src: Source, groups: seq<GroupConfig>)
    requires groups != [] && AllLoaded(src, groups).Failure?
    ensures AllLoaded(src, groups).error ==
      if AllLoaded(src, groups[..|groups| - 1]).Failure? then AllLoaded(src, groups[..|groups| - 1]).error
      else Loaded(src, groups[|groups| - 1]).error
  {
  }

  /** A success is the earlier map with this group's entry set. */
  lemma AllLoadedStepValue(src: Source, groups: seq<GroupConfig>)
    requires groups != [] && AllLoaded(src, groups).Success?
    ensures AllLoaded(src, groups[..|groups| - 1]).Success? && Loaded(src, groups[|groups| - 1]).Success?
    ensures AllLoaded(src, groups).value ==
      AllLoaded(src, groups[..|groups| - 1]).value[groups[|groups| - 1].name := Loaded(src, groups[|groups| - 1]).value]
  {
  }

  /** A successful load has exactly one entry per configured group name. */
  lemma {:induction false} AllLoadedKeys(src: Source, groups: seq<GroupConfig>)
    requires AllLoaded(src, groups).Success?
    ensures AllLoaded(src, groups).value.Keys == Names(groups)
    decreases |groups|
  {
    if groups != [] {
      AllLoadedStepValue(src, groups);
      AllLoadedKeys(src, groups[..|groups| - 1]);
      NamesStep(groups);
    }
  }

  /** A group that fails makes the whole load fail. */
  lemma {:induction false} FailingGroupFails(src: Source, groups: seq<GroupConfig>, i: nat)
    requires i < |groups| && Loaded(src, groups[i]).Failure?
    ensures AllLoaded(src, groups).Failure?
    decreases |groups|
  {
    var init := groups[..|groups| - 1];
    AllLoadedStepFails(src, groups);
    if i < |init| {
      assert init[i] == groups[i];
      FailingGroupFails(src, init, i);
    } else {
      assert i == |groups| - 1;
    }
  }

  /** A failed load has a group that fails. */
  lemma {:induction false} FailureHasFailingGroup(src: Source, groups: seq<GroupConfig>) returns (i: nat)
    requires AllLoaded(src, groups).Failure?
    ensures i < |groups| && Loaded(src, groups[i]).Failure?
    decreases |groups|
  {
    var init := groups[..|groups| - 1];
    AllLoadedStepFails(src, groups);
    if AllLoaded(src, init).Failure? {
      i := FailureHasFailingGroup(src, init);
      assert init[i] == groups[i];
    } else {
      i := |groups| - 1;
    }
  }

  /** The load fails exactly when some group's fetch fails. */
  lemma AllLoadedFailure(src: Source, groups: seq<GroupConfig>)
    ensures AllLoaded(src, groups).Failure? <==> exists i :: 0 <= i < |groups| && Loaded(src, groups[i]).Failure?
  {
    if i :| 0 <= i < |groups| && Loaded(src, groups[i]).Failure? {
      FailingGroupFails(src, groups, i);
    }
    if AllLoaded(src, groups).Failure? {
      var i := FailureHasFailingGroup(src, groups);
    }
  }

  /** A failed load carries the error of the first group that fails. */
  lemma {:induction false} AllLoadedFirstError(src: Source, groups: seq<GroupConfig>, i: nat)
    requires i < |groups| && Loaded(src, groups[i]).Failure?
    requires forall j :: 0 <= j < i ==> Loaded(src, groups[j]).Success?
    ensures AllLoaded(src, groups) == Failure(Loaded(src, groups[i]).error)
    decreases |groups|
  {
    var init := groups[..|groups| - 1];
    FailingGroupFails(src, groups, i);
    AllLoadedStepFails(src, groups);
    AllLoadedStepError(src, groups);
    if i < |init| {
      forall j | 0 <= j < i
        ensures Loaded(src, init[j]).Success?
      {
        assert init[j] == groups[j];
      }
      assert init[i] == groups[i];
      AllLoadedFirstError(src, init, i);
    } else {
      assert i == |groups| - 1;
      if AllLoaded(src, init).Failure? {
        var j := FailureHasFailingGroup(src, init);
        assert false;
      }
    }
  }

  /** The configured group names and the student groups' snapshot. */
  class Fetcher {
    var current: Option<map<string, D.Deadlines>>
    const groups: seq<GroupConfig>
    const source: Source

    constructor (groups: seq<GroupConfig>, source: Source)
      ensures this.groups == groups && this.source == source && current.None?
    {
      this.groups := groups;
      this.source := source;
      current := None;
    }

    /** Every stored definition is the loaded one of its group name, with
        its lookup tables derived from its scoring block. */
    static ghost predicate Holds(m: map<string, D.Deadlines>, loaded: map<string, Definition>)
      reads m.Values
    {
      m.Keys == loaded.Keys &&
      forall k :: k in m ==> (m[k].assignments, m[k].scoring) == loaded[k] && m[k].Indexed()
    }

    /** Storing a group's definition keeps the snapshot in step with the
        loaded map. */
    static lemma HoldsUpdate(m: map<string, D.Deadlines>, loaded: map<string, Definition>,
                             name: string, d: D.Deadlines, def: Definition)
      requires Holds(m, loaded) && (d.assignments, d.scoring) == def && d.Indexed()
      ensures Holds(m[name := d], loaded[name := def])
    {
    }

    /** The loop of `reload`: the groups fetched in order into a fresh map,
        stopping at the first that fails. */
    static method LoadAll(source: Source, groups: seq<GroupConfig>) returns (r: Result<map<string, D.Deadlines>>)
      ensures r.Failure? <==> AllLoaded(source, groups).Failure?
      ensures r.Failure? ==> r.error == AllLoaded(source, groups).error
      ensures r.Success? ==> Holds(r.value, AllLoaded(source, groups).value)
    {
      var m: map<string, D.Deadlines> := map[];
      var i := 0;
      while i < |groups|
        invariant 0 <= i <= |groups|
        invariant AllLoaded(source, groups[..i]).Success?
        invariant Holds(m, AllLoaded(source, groups[..i]).value)
      {
        var next := i + 1;
        var group := groups[i];
        var d := Fetch(source, group);
        ghost var prefix := groups[..next];
        assert |prefix| - 1 == i && prefix[..i] == groups[..i] && prefix[i] == group;
        AllLoadedStepFails(source, prefix);
        if d.Failure? {
          AllLoadedStepError(source, prefix);
          NoRecovery(source, groups, next);
          return Failure(d.error);
        }
        AllLoadedStepValue(source, prefix);
        ghost var loaded := AllLoaded(source, groups[..i]).value;
        ghost var def := Loaded(source, group).value;
        HoldsUpdate(m, loaded, group.name, d.value, def);
        m := m[group.name := d.value];
        i := next;
      }
      assert groups[..|groups|] == groups;
      return Success(m);
    }

    /** `reload`: a failed group leaves the snapshot as it was; otherwise the
        whole snapshot is replaced at once. */
    method Reload() returns (err: Option<string>)
      modifies this
      ensures AllLoaded(source, groups).Failure? ==>
        err == Some("Failed to reload deadlines: " + AllLoaded(source, groups).error) && current == old(current)
      ensures AllLoaded(source, groups).Success? ==>
        err.None? && current.Some? && Holds(current.value, AllLoaded(source, groups).value)
    {
      var loaded := LoadAll(source, groups);
      if loaded.Failure? {
        return Some("Failed to reload deadlines: " + loaded.error);
      }
      current := Some(loaded.value);
      return None;
    }

    /** `GroupDeadlines`: nothing before the first snapshot, otherwise the
        lookup, which is nothing for an unknown group. */
    function GroupDeadlines(group: string): (r: Option<D.Deadlines>)
      reads this
      ensures current.None? ==> r.None?
      ensures current.Some? ==> (r.Some? <==> group in current.value)
      ensures r.Some? ==> r.value == current.value[group]
    {
      if current.None? then None
      else if group in current.value then Some(current.value[group])
      else None
    }
  }

  /** Once a prefix of the groups fails, so does every longer prefix. */
  lemma {:induction false} NoRecovery(src: Source, groups: seq<GroupConfig>, i: nat)
    requires i <= |groups| && AllLoaded(src, groups[..i]).Failure?
    ensures AllLoaded(src, groups).Failure? && AllLoaded(src, groups).error == AllLoaded(src, groups[..i]).error
    decreases |groups| - i
  {
    if i < |groups| {
      assert groups[..i + 1][..i] == groups[..i];
      NoRecovery(src, groups, i + 1);
    } else {
      assert groups[..i] == groups;
    }
  }

  /** `NewFetcher`: fails when the first reload fails; after a successful one
      a snapshot is always present, so its "No deadlines found" panic cannot
      happen. */
  method NewFetcher(groups: seq<GroupConfig>, source: Source) returns (r: Result<Fetcher>)
    ensures r.Failure? <==> AllLoaded(source, groups).Failure?
    ensures r.Failure? ==> r.error == "Failed to reload deadlines: " + AllLoaded(source, groups).error
    ensures r.Success? ==> fresh(r.value) && r.value.groups == groups && r.value.current.Some?
  {
    var f := new Fetcher(groups, source);
    var err := f.Reload();
    if err.Some? {
      return Failure(err.value);
    }
    return Success(f);
  }
}
