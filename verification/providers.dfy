/** The cached providers of the scoreboard (internal/scorer/scorer.go): the
    cohort's pipelines grouped by project and its claimed flags grouped by
    claimer, each group in listing order. */
module Providers {
  import opened Wrappers
  import opened Models

  /** The elements of `xs` with key `k`, in order. */
  function Bucket<T>(xs: seq<T>, key: T -> string, k: string): (b: seq<T>)
    ensures |b| <= |xs|
    ensures forall x :: x in b ==> x in xs && key(x) == k
  {
    if xs == [] then []
    else Bucket(xs[..|xs| - 1], key, k) + (if key(xs[|xs| - 1]) == k then [xs[|xs| - 1]] else [])
  }

  function Keys<T>(xs: seq<T>, key: T -> string): set<string> {
    set i | 0 <= i < |xs| :: key(xs[i])
  }

  /** A key no element has gets an empty bucket. */
  lemma {:induction false} BucketOfAbsentKey<T>(xs: seq<T>, key: T -> string, k: string)
    requires k !in Keys(xs, key)
    ensures Bucket(xs, key, k) == []
    decreases |xs|
  {
    if xs != [] {
      var init := xs[..|xs| - 1];
      assert forall i :: 0 <= i < |init| ==> init[i] == xs[i];
      assert key(xs[|xs| - 1]) in Keys(xs, key);
      BucketOfAbsentKey(init, key, k);
    }
  }

  /** Every element lands, as often as it occurs, in the bucket of its own
      key and in no other: the buckets together are a permutation of the input. */
  lemma {:induction false} BucketsPermute<T>(xs: seq<T>, key: T -> string, x: T, k: string)
    ensures multiset(Bucket(xs, key, key(x)))[x] == multiset(xs)[x]
    ensures k != key(x) ==> multiset(Bucket(xs, key, k))[x] == 0
    decreases |xs|
  {
    if xs != [] {
      var init := xs[..|xs| - 1];
      BucketsPermute(init, key, x, k);
      assert xs == init + [xs[|xs| - 1]];
    }
  }

  lemma BucketStep<T>(xs: seq<T>, key: T -> string, i: nat, k: string)
    requires i < |xs|
    ensures Bucket(xs[..i + 1], key, k) == Bucket(xs[..i], key, k) + (if key(xs[i]) == k then [xs[i]] else [])
  {
    assert xs[..i + 1][..i] == xs[..i];
  }

  lemma KeysStep<T>(xs: seq<T>, key: T -> string, i: nat)
    requires i < |xs|
    ensures Keys(xs[..i + 1], key) == Keys(xs[..i], key) + {key(xs[i])}
  {
    assert forall j :: 0 <= j < i ==> xs[..i + 1][j] == xs[..i][j];
  }

  /** `m` groups the first `i` elements by key. */
  ghost predicate Grouped<T>(xs: seq<T>, key: T -> string, i: nat, m: map<string, seq<T>>)
    requires i <= |xs|
  {
    m.Keys == Keys(xs[..i], key) && forall k :: k in m ==> m[k] == Bucket(xs[..i], key, k)
  }

  lemma GroupedStep<T>(xs: seq<T>, key: T -> string, i: nat, m: map<string, seq<T>>)
    requires i < |xs| && Grouped(xs, key, i, m)
    ensures Grouped(xs, key, i + 1, m[key(xs[i]) := (if key(xs[i]) in m then m[key(xs[i])] else []) + [xs[i]]])
  {
    KeysStep(xs, key, i);
    if key(xs[i]) !in m {
      BucketOfAbsentKey(xs[..i], key, key(xs[i]));
    }
    forall k
      ensures Bucket(xs[..i + 1], key, k) == Bucket(xs[..i], key, k) + (if key(xs[i]) == k then [xs[i]] else [])
    {
      BucketStep(xs, key, i, k);
    }
  }

  /** The loop of the cached providers: every element is appended to the
      list of its key. */
  method Partition<T>(xs: seq<T>, key: T -> string) returns (m: map<string, seq<T>>)
    ensures m.Keys == Keys(xs, key)
    ensures forall k :: k in m ==> m[k] == Bucket(xs, key, k)
  {
    m := map[];
    for i := 0 to |xs|
      invariant Grouped(xs, key, i, m)
    {
      var x := xs[i];
      var prev := if key(x) in m then m[key(x)] else [];
      GroupedStep(xs, key, i, m);
      m := m[key(x) := prev + [x]];
    }
    assert xs[..|xs|] == xs;
  }

  /** A provider built over a listing answers every key with that key's bucket. */
  method CachedProvider<T>(xs: seq<T>, key: T -> string) returns (provider: string -> Result<seq<T>>)
    ensures forall k :: provider(k) == Success(Bucket(xs, key, k))
  {
    var m := Partition(xs, key);
    provider := k => Success(if k in m then m[k] else []);
    forall k
      ensures provider(k) == Success(Bucket(xs, key, k))
    {
      if k !in m {
        BucketOfAbsentKey(xs, key, k);
      }
    }
  }

  function PipelineProject(p: Pipeline): string { p.project }

  /** The claimer of a flag; the source dereferences it, so only claimed
      flags are grouped. */
  function FlagClaimer(f: Flag): string {
    if f.login.Some? then f.login.value else ""
  }

  /** `makeCachedPipelinesProvider` over the listing of all pipelines. */
  method MakeCachedPipelinesProvider(all: seq<Pipeline>) returns (provider: string -> Result<seq<Pipeline>>)
    ensures forall project :: provider(project) == Success(Bucket(all, PipelineProject, project))
  {
    provider := CachedProvider(all, PipelineProject);
  }

  /** `makeCachedFlagsProvider` over the listing of the claimed flags. */
  method MakeCachedFlagsProvider(claimed: seq<Flag>) returns (provider: string -> Result<seq<Flag>>)
    requires forall f :: f in claimed ==> f.login.Some?
    ensures forall login :: provider(login) == Success(Bucket(claimed, FlagClaimer, login))
    ensures forall login, f :: f in provider(login).value ==> f.login == Some(login)
  {
    provider := CachedProvider(claimed, FlagClaimer);
  }
}
