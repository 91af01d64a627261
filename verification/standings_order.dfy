/** The order of the standings (`CalcScoreboard` in internal/scorer/scorer.go):
    the higher score first, equal scores by full name, and the in-place sort
    of the per-student slice. */
module StandingsOrder {
  import opened Text
  import R = Results

  /** `scores[i]` goes before `scores[j]`. */
  predicate Before(a: R.UserScores, b: R.UserScores) {
    if a.score != b.score then a.score > b.score
    else LexLess(a.user.FullName(), b.user.FullName())
  }

  /** Nothing later goes strictly before anything earlier. */
  predicate Sorted(s: seq<R.UserScores>) {
    forall i, j :: 0 <= i < j < |s| ==> !Before(s[j], s[i])
  }

  /** A name strictly between two others in either direction: whatever
      `y` is, `x < z` puts `x` before `y` or `y` before `z`. */
  lemma LexLessSplit(x: string, y: string, z: string)
    requires LexLess(x, z)
    ensures LexLess(x, y) || LexLess(y, z)
  {
    if y != x && y != z {
      LexLessTotal(x, y);
      if LexLess(y, x) {
        LexLessTransitive(y, x, z);
      }
    }
  }

  /** `Before` is a strict weak order: irreflexive, asymmetric, and "not
      before" is transitive, so a sorted permutation exists and equal
      entries are those with the same score and full name. */
  lemma BeforeIsStrictWeakOrder(a: R.UserScores, b: R.UserScores, c: R.UserScores)
    ensures !Before(a, a)
    ensures Before(a, b) ==> !Before(b, a)
    ensures !Before(a, b) && !Before(b, c) ==> !Before(a, c)
    ensures !Before(a, b) && !Before(b, a) <==> a.score == b.score && a.user.FullName() == b.user.FullName()
  {
    var na, nb, nc := a.user.FullName(), b.user.FullName(), c.user.FullName();
    LexLessIrreflexive(na);
    if LexLess(na, nb) && LexLess(nb, na) {
      LexLessTransitive(na, nb, na);
    }
    if na != nb {
      LexLessTotal(na, nb);
    }
    if a.score == b.score == c.score && LexLess(na, nc) {
      LexLessSplit(na, nb, nc);
    }
  }

  /** The state of the sort while `a[j]` moves down from position `i`: the
      part before `j` and the part from `j` to `i` are sorted, and nothing
      after `j` goes before anything before it. */
  ghost predicate Inserting(s: seq<R.UserScores>, i: int, j: int)
    requires 0 <= j <= i < |s|
  {
    (forall k, l :: 0 <= k < l < j ==> !Before(s[l], s[k])) &&
    (forall k, l :: j <= k < l <= i ==> !Before(s[l], s[k])) &&
    (forall k, l :: 0 <= k < j < l <= i ==> !Before(s[l], s[k]))
  }

  /** Swapping the moving entry with a predecessor it goes before keeps the
      state one position lower. */
  lemma InsertingStep(s: seq<R.UserScores>, i: int, j: int)
    requires 0 < j <= i < |s| && Inserting(s, i, j) && Before(s[j], s[j - 1])
    ensures Inserting(s[j - 1 := s[j]][j := s[j - 1]], i, j - 1)
  {
    var t := s[j - 1 := s[j]][j := s[j - 1]];
    BeforeIsStrictWeakOrder(s[j], s[j - 1], s[j]);
    forall k, l | j - 1 <= k < l <= i
      ensures !Before(t[l], t[k])
    {
      if k == j - 1 && l == j {
      } else if k == j - 1 {
        assert !Before(s[l], s[j]);
      } else if k == j {
        assert !Before(s[l], s[j - 1]);
      }
    }
  }

  /** The moving entry stops behind a predecessor it does not go before:
      the prefix up to `i` is sorted. */
  lemma InsertingDone(s: seq<R.UserScores>, i: int, j: int)
    requires 0 <= j <= i < |s| && Inserting(s, i, j)
    requires j == 0 || !Before(s[j], s[j - 1])
    ensures forall k, l :: 0 <= k < l <= i ==> !Before(s[l], s[k])
  {
    forall k, l | 0 <= k < l <= i
      ensures !Before(s[l], s[k])
    {
      if k < j && l == j {
        if k < j - 1 {
          BeforeIsStrictWeakOrder(s[j], s[j - 1], s[k]);
        }
      }
    }
  }

  /** Swapping two neighbours keeps the entries. */
  lemma SwapKeepsEntries(s: seq<R.UserScores>, j: int)
    requires 0 < j < |s|
    ensures multiset(s[j - 1 := s[j]][j := s[j - 1]]) == multiset(s)
  {
  }

  /** `sort.Slice` with the standings order, as an insertion sort: the
      slice ends sorted and holds the same entries. */
  method SortStandings(a: array<R.UserScores>)
    modifies a
    ensures Sorted(a[..])
    ensures multiset(a[..]) == multiset(old(a[..]))
  {
    if a.Length == 0 {
      return;
    }
    for i := 1 to a.Length
      invariant forall k, l :: 0 <= k < l < i ==> !Before(a[l], a[k])
      invariant multiset(a[..]) == multiset(old(a[..]))
    {
      var j := i;
      while j > 0 && Before(a[j], a[j - 1])
        invariant 0 <= j <= i
        invariant Inserting(a[..], i, j)
        invariant multiset(a[..]) == multiset(old(a[..]))
      {
        ghost var s := a[..];
        InsertingStep(s, i, j);
        SwapKeepsEntries(s, j);
        a[j - 1], a[j] := a[j], a[j - 1];
        assert a[..] == s[j - 1 := s[j]][j := s[j - 1]];
        j := j - 1;
      }
      InsertingDone(a[..], i, j);
    }
  }

  /** The per-student slice sorted in place, as a value. */
  method SortedStandings(s: seq<R.UserScores>) returns (r: seq<R.UserScores>)
    ensures Sorted(r) && multiset(r) == multiset(s)
  {
    var a := new R.UserScores[|s|](i requires 0 <= i < |s| => s[i]);
    assert a[..] == s;
    SortStandings(a);
    r := a[..];
  }
}
