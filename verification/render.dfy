/** The pages of internal/web/render.go that carry logic: the flag pattern,
    the flag-submission decision chain, and the reversal of groups before
    the home and standings pages are shown. */
module Render {
  import opened Wrappers
  import opened Text
  import opened Models
  import R = Results
  import D = Deadlines
  import F = Fetcher
  import DB = Database

  // ------------------------------------------------------------ the flag pattern

  /** `[a-z0-9_/]`. */
  predicate SegmentChar(c: char) {
    ('a' <= c <= 'z') || ('0' <= c <= '9') || c == '_' || c == '/'
  }

  /** `[0-9a-f]`. */
  predicate HexChar(c: char) {
    ('0' <= c <= '9') || ('a' <= c <= 'f')
  }

  predicate SegmentWord(w: string) {
    w != [] && forall i :: 0 <= i < |w| ==> SegmentChar(w[i])
  }

  predicate HexWord(w: string) {
    w != [] && forall i :: 0 <= i < |w| ==> HexChar(w[i])
  }

  /** The pieces of `x` between dashes; there is always at least one. */
  function Split(x: string): (parts: seq<string>)
    ensures |parts| >= 1
  {
    if x == [] then [""]
    else if x[0] == '-' then [""] + Split(x[1..])
    else var rest := Split(x[1..]); [[x[0]] + rest[0]] + rest[1..]
  }

  /** Every word preceded by a dash: what `(-w)+` produces. */
  function Dashed(words: seq<string>): string {
    if words == [] then "" else "-" + words[0] + Dashed(words[1..])
  }

  /** `flagRe.MatchString`, decided by splitting the text between "{FLAG"
      and "}" at its dashes: two or more non-empty words over `[a-z0-9_/]`,
      the last one hexadecimal. */
  predicate FlagMatches(s: string) {
    |s| >= 7 && s[..5] == "{FLAG" && s[|s| - 1] == '}' && s[5] == '-'
    && var parts := Split(s[6..|s| - 1]);
      |parts| >= 2
      && (forall i :: 0 <= i < |parts| ==> SegmentWord(parts[i]))
      && HexWord(parts[|parts| - 1])
  }

  /** The language of `^\{FLAG(-[a-z0-9_/]+)+(-[0-9a-f]+)+\}$` as written:
      one or more dashed segment words, then one or more dashed hex words. */
  ghost predicate FlagPattern(s: string) {
    exists words: seq<string>, hex: seq<string> ::
      |words| >= 1 && |hex| >= 1
      && (forall i :: 0 <= i < |words| ==> SegmentWord(words[i]))
      && (forall i :: 0 <= i < |hex| ==> HexWord(hex[i]))
      && s == "{FLAG" + Dashed(words) + Dashed(hex) + "}"
  }

  lemma {:induction false} DashedAppend(a: seq<string>, b: seq<string>)
    ensures Dashed(a + b) == Dashed(a) + Dashed(b)
    decreases |a|
  {
    if a == [] {
      assert a + b == b;
    } else {
      assert (a + b)[0] == a[0] && (a + b)[1..] == a[1..] + b;
      DashedAppend(a[1..], b);
      calc {
        Dashed(a + b);
        "-" + a[0] + Dashed(a[1..] + b);
        "-" + a[0] + (Dashed(a[1..]) + Dashed(b));
        Dashed(a) + Dashed(b);
      }
    }
  }

  /** Splitting what `Dashed` built gives the words back when they hold no dash. */
  lemma {:induction false} SplitDashed(words: seq<string>)
    requires |words| >= 1 && forall i :: 0 <= i < |words| ==> '-' !in words[i]
    ensures Split(Dashed(words)[1..]) == words
    decreases |words|
  {
    var more := words[1..];
    assert '-' !in words[0];
    assert Dashed(words)[1..] == words[0] + Dashed(more);
    if more == [] {
      SplitWord(words[0], "");
      assert words[0] + "" == words[0];
      assert words == [words[0]];
    } else {
      SplitDashed(more);
      var d := Dashed(more);
      assert d == "-" + d[1..];
      assert Split(d) == [""] + more;
      SplitWord(words[0], d);
      assert words[0] + "" == words[0];
      assert words == [words[0]] + more;
    }
  }

  /** A dash-free word in front joins the first piece. */
  lemma {:induction false} SplitWord(w: string, y: string)
    requires '-' !in w
    ensures Split(w + y) == [w + Split(y)[0]] + Split(y)[1..]
    decreases |w|
  {
    if w != [] {
      var c, more := w[0], w[1..];
      assert c != '-' && w == [c] + more;
      SplitWord(more, y);
      SplitCons(c, more, y);
    } else {
      assert w + y == y;
      assert [] + Split(y)[0] == Split(y)[0];
      assert Split(y) == [Split(y)[0]] + Split(y)[1..];
    }
  }

  /** A character other than a dash joins the first piece. */
  lemma SplitCons(c: char, more: string, y: string)
    requires c != '-' && Split(more + y) == [more + Split(y)[0]] + Split(y)[1..]
    ensures Split([c] + more + y) == [[c] + more + Split(y)[0]] + Split(y)[1..]
  {
    var x := more + y;
    var s := [c] + x;
    assert s[0] == c && s[1..] == x;
    SplitUnfold(s);
    assert [c] + more + y == s;
    assert [c] + (more + Split(y)[0]) == [c] + more + Split(y)[0];
  }

  lemma SplitUnfold(s: string)
    requires s != [] && s[0] != '-'
    ensures Split(s) == [[s[0]] + Split(s[1..])[0]] + Split(s[1..])[1..]
  {
  }

  /** Dashing the pieces of `x` gives back a dash and `x`. */
  lemma {:induction false} DashedSplit(x: string)
    ensures Dashed(Split(x)) == "-" + x
    decreases |x|
  {
    if x != [] {
      DashedSplit(x[1..]);
      if x[0] != '-' {
        var rest := Split(x[1..]);
        var parts := Split(x);
        SplitUnfold(x);
        assert parts[0] == [x[0]] + rest[0] && parts[1..] == rest[1..];
        assert Dashed(rest) == "-" + rest[0] + Dashed(rest[1..]);
        assert ("-" + rest[0] + Dashed(rest[1..]))[1..] == rest[0] + Dashed(rest[1..]);
        assert ("-" + x[1..])[1..] == x[1..];
        assert rest[0] + Dashed(rest[1..]) == x[1..];
        calc {
          Dashed(parts);
          "-" + ([x[0]] + rest[0]) + Dashed(rest[1..]);
          "-" + [x[0]] + (rest[0] + Dashed(rest[1..]));
          "-" + [x[0]] + x[1..];
        }
        assert x == [x[0]] + x[1..];
      }
    }
  }

  lemma HexWordIsSegmentWord(w: string)
    requires HexWord(w)
    ensures SegmentWord(w) && '-' !in w
  {
    assert forall i :: 0 <= i < |w| ==> SegmentChar(w[i]);
  }

  lemma SegmentWordHasNoDash(w: string)
    requires SegmentWord(w)
    ensures '-' !in w
  {
  }

  /** The matcher accepts exactly the language of the pattern. */
  lemma FlagMatchesIsPattern(s: string)
    ensures FlagMatches(s) <==> FlagPattern(s)
  {
    if FlagPattern(s) {
      var words: seq<string>, hex: seq<string> :|
        |words| >= 1 && |hex| >= 1
        && (forall i :: 0 <= i < |words| ==> SegmentWord(words[i]))
        && (forall i :: 0 <= i < |hex| ==> HexWord(hex[i]))
        && s == "{FLAG" + Dashed(words) + Dashed(hex) + "}";
      PatternMatches(s, words, hex);
    }
    if FlagMatches(s) {
      MatchesPattern(s);
    }
  }

  lemma PatternMatches(s: string, words: seq<string>, hex: seq<string>)
    requires |words| >= 1 && |hex| >= 1
    requires forall i :: 0 <= i < |words| ==> SegmentWord(words[i])
    requires forall i :: 0 <= i < |hex| ==> HexWord(hex[i])
    requires s == "{FLAG" + Dashed(words) + Dashed(hex) + "}"
    ensures FlagMatches(s)
  {
    var all := words + hex;
    WordsOfFlag(words, hex);
    var front, back := Dashed(words), Dashed(hex);
    assert s == "{FLAG" + (front + back) + "}" by {
      Associative("{FLAG", front, back, "}");
    }
    Enclosed(Dashed(all), s);
    MatchesFromParts(s, all);
  }

  lemma MatchesFromParts(s: string, parts: seq<string>)
    requires |s| >= 7 && s[..5] == "{FLAG" && s[|s| - 1] == '}' && s[5] == '-'
    requires Split(s[6..|s| - 1]) == parts && |parts| >= 2
    requires forall i :: 0 <= i < |parts| ==> SegmentWord(parts[i])
    requires HexWord(parts[|parts| - 1])
    ensures FlagMatches(s)
  {
  }

  /** The words of a flag in the pattern, read back by splitting. */
  lemma WordsOfFlag(words: seq<string>, hex: seq<string>)
    requires |words| >= 1 && |hex| >= 1
    requires forall i :: 0 <= i < |words| ==> SegmentWord(words[i])
    requires forall i :: 0 <= i < |hex| ==> HexWord(hex[i])
    ensures Dashed(words + hex) == Dashed(words) + Dashed(hex)
    ensures |Dashed(words + hex)| >= 2 && Dashed(words + hex)[0] == '-'
    ensures Split(Dashed(words + hex)[1..]) == words + hex
    ensures forall i :: 0 <= i < |words + hex| ==> SegmentWord((words + hex)[i])
    ensures HexWord((words + hex)[|words + hex| - 1])
  {
    var all := words + hex;
    DashedAppend(words, hex);
    assert all[0] == words[0] && all[|all| - 1] == hex[|hex| - 1];
    AllWords(words, hex);
    SplitDashed(all);
  }

  lemma AllWords(words: seq<string>, hex: seq<string>)
    requires forall i :: 0 <= i < |words| ==> SegmentWord(words[i])
    requires forall i :: 0 <= i < |hex| ==> HexWord(hex[i])
    ensures forall i :: 0 <= i < |words + hex| ==> SegmentWord((words + hex)[i]) && '-' !in (words + hex)[i]
  {
    var all := words + hex;
    forall i | 0 <= i < |all|
      ensures SegmentWord(all[i]) && '-' !in all[i]
    {
      if i < |words| {
        SegmentWordHasNoDash(words[i]);
      } else {
        HexWordIsSegmentWord(hex[i - |words|]);
      }
    }
  }

  lemma Associative(a: string, b: string, c: string, d: string)
    ensures a + b + c + d == a + (b + c) + d
  {
  }

  /** Where the dashed words sit inside the braces. */
  lemma Enclosed(body: string, s: string)
    requires |body| >= 2 && body[0] == '-' && s == "{FLAG" + body + "}"
    ensures |s| >= 7 && s[..5] == "{FLAG" && s[|s| - 1] == '}' && s[5] == '-'
    ensures s[6..|s| - 1] == body[1..]
  {
    assert s[..5] == "{FLAG";
    assert s[6..|s| - 1] == body[1..];
  }

  /** A matching text is the braces around a dash and the text between. */
  lemma Unenclosed(s: string)
    requires |s| >= 7 && s[..5] == "{FLAG" && s[|s| - 1] == '}' && s[5] == '-'
    ensures s == "{FLAG" + ("-" + s[6..|s| - 1]) + "}"
  {
    assert s == s[..5] + [s[5]] + s[6..|s| - 1] + [s[|s| - 1]];
  }

  lemma MatchesPattern(s: string)
    requires FlagMatches(s)
    ensures FlagPattern(s)
  {
    var words, hex := PatternParts(s);
  }

  /** The words of a matching text: all pieces but the last, then the last. */
  lemma PatternParts(s: string) returns (words: seq<string>, hex: seq<string>)
    requires FlagMatches(s)
    ensures |words| >= 1 && |hex| >= 1
    ensures forall i :: 0 <= i < |words| ==> SegmentWord(words[i])
    ensures forall i :: 0 <= i < |hex| ==> HexWord(hex[i])
    ensures s == "{FLAG" + Dashed(words) + Dashed(hex) + "}"
  {
    var body := s[6..|s| - 1];
    var parts := Split(body);
    var n := |parts|;
    words, hex := parts[..n - 1], [parts[n - 1]];
    assert parts == words + hex;
    DashedSplit(body);
    DashedAppend(words, hex);
    Unenclosed(s);
    assert forall i :: 0 <= i < |words| ==> words[i] == parts[i];
  }

  /** A flag id made by `CreateFlag` matches when the task's dash-separated
      parts are non-empty words over `[a-z0-9_/]` and the UUID's parts are
      non-empty lowercase hex words. */
  lemma CreatedFlagMatches(task: string, uuid: string)
    requires forall i :: 0 <= i < |Split(task)| ==> SegmentWord(Split(task)[i])
    requires forall i :: 0 <= i < |Split(uuid)| ==> HexWord(Split(uuid)[i])
    ensures FlagMatches(DB.FlagId(task, uuid))
  {
    var id := DB.FlagId(task, uuid);
    var words, hex := Split(task), Split(uuid);
    DashedSplit(task);
    DashedSplit(uuid);
    var front, back := Dashed(words), Dashed(hex);
    FlagIdDashed(task, uuid, front, back);
    PatternMatches(id, words, hex);
  }

  /** The ID `CreateFlag` builds, read as the pattern's braces around two
      dashed parts. */
  lemma FlagIdDashed(task: string, uuid: string, front: string, back: string)
    requires front == "-" + task && back == "-" + uuid
    ensures DB.FlagId(task, uuid) == "{FLAG" + front + back + "}"
  {
    assert "{FLAG-" == "{FLAG" + "-";
    assert "{FLAG" + front + back + "}" == "{FLAG" + "-" + task + "-" + uuid + "}";
  }

  // ------------------------------------------------------------ flag submission

  const InvalidFlag := "Invalid flag"
  const UnknownFlagMessage := "Unknown flag"
  const FlagAccepted := "The matrix has you..."

  /** What a flag submission shows: a redirect to the sign-up page, or the
      flag page with an error or a success message. */
  datatype FlagPage = RedirectToSignup | FlagForm(errorMessage: string, successMessage: string)

  /** `handleFlagSubmitGitlab` and `handleFlagSubmitGitea`: the platform's
      login is required, then the pattern, then the claim in the database. */
  method HandleFlagSubmit(db: DB.DataBase, login: Option<string>, flag: string) returns (page: FlagPage)
    requires db.Valid()
    modifies db
    ensures db.Valid()
    ensures login.None? ==> page == RedirectToSignup && db.flags == old(db.flags)
    ensures login.Some? && !FlagMatches(flag) ==> page == FlagForm(InvalidFlag, "") && db.flags == old(db.flags)
    ensures login.Some? && FlagMatches(flag) && DB.Claim(old(db.flags), flag, login.value).Failure? ==>
      page == FlagForm(UnknownFlagMessage, "") && db.flags == old(db.flags)
    ensures login.Some? && FlagMatches(flag) && DB.Claim(old(db.flags), flag, login.value).Success? ==>
      page == FlagForm("", FlagAccepted) && db.flags == DB.Claim(old(db.flags), flag, login.value).value
    ensures db.pipelines == old(db.pipelines) && db.overrides == old(db.overrides) && db.users == old(db.users)
  {
    if login.None? {
      return RedirectToSignup;
    }
    if !FlagMatches(flag) {
      return FlagForm(InvalidFlag, "");
    }
    var err := db.SubmitFlag(flag, login.value);
    if err.Some? {
      return FlagForm(UnknownFlagMessage, "");
    }
    return FlagForm("", FlagAccepted);
  }

  /** A text outside the pattern never reaches the database, so no flag can
      be claimed with it. */
  lemma InvalidFlagClaimsNothing(flags: map<string, Flag>, flag: string, login: string)
    requires !FlagMatches(flag)
    requires forall id :: id in flags ==> FlagMatches(id)
    ensures DB.Claim(flags, flag, login).Failure?
  {
  }

  // ------------------------------------------------------------ reversal

  /** `generic.ReverseSlice`: swaps from both ends towards the middle. */
  method ReverseSlice<T>(a: array<T>)
    modifies a
    ensures a[..] == Reversed(old(a[..]))
  {
    ghost var s := a[..];
    var i, j := 0, a.Length - 1;
    while i < j
      invariant 0 <= i <= a.Length && j == a.Length - 1 - i && i <= j + 1
      invariant forall k :: 0 <= k < i ==> a[k] == s[a.Length - 1 - k] && a[a.Length - 1 - k] == s[k]
      invariant forall k :: i <= k <= j ==> a[k] == s[k]
    {
      a[i], a[j] := a[j], a[i];
      i, j := i + 1, j - 1;
    }
    forall k | 0 <= k < a.Length
      ensures a[k] == Reversed(s)[k]
    {
      ReversedAt(s, k);
    }
  }

  /** The reversal of a copied slice, as a value. */
  method ReverseSeq<T>(s: seq<T>) returns (r: seq<T>)
    ensures r == Reversed(s)
  {
    if |s| == 0 {
      return [];
    }
    var a := new T[|s|](i requires 0 <= i < |s| => s[i]);
    assert a[..] == s;
    ReverseSlice(a);
    r := a[..];
  }

  /** `reverseScores`: a student's groups, last deadline first. */
  method ReverseScores(scores: R.UserScores) returns (r: R.UserScores)
    ensures r == scores.(groups := Reversed(scores.groups))
  {
    var groups := ReverseSeq(scores.groups);
    r := scores.(groups := groups);
  }

  /** Reversing a student's groups twice gives the page back, and the
      tasks inside a group keep their order. */
  lemma ReverseScoresTwice(scores: R.UserScores)
    ensures var once := scores.(groups := Reversed(scores.groups));
      once.(groups := Reversed(once.groups)) == scores
    ensures forall k :: 0 <= k < |scores.groups| ==>
      Reversed(scores.groups)[k].tasks == scores.groups[|scores.groups| - 1 - k].tasks
  {
    ReversedReversed(scores.groups);
    forall k | 0 <= k < |scores.groups|
      ensures Reversed(scores.groups)[k].tasks == scores.groups[|scores.groups| - 1 - k].tasks
    {
      ReversedAt(scores.groups, k);
    }
  }

  /** Every student's groups reversed, the students kept in order. */
  method ReverseEachScores(users: seq<R.UserScores>) returns (r: seq<R.UserScores>)
    ensures |r| == |users|
    ensures forall i :: 0 <= i < |r| ==> r[i] == users[i].(groups := Reversed(users[i].groups))
  {
    r := users;
    for i := 0 to |r|
      invariant |r| == |users|
      invariant forall k :: 0 <= k < i ==> r[k] == users[k].(groups := Reversed(users[k].groups))
      invariant forall k :: i <= k < |r| ==> r[k] == users[k]
    {
      var reversed := ReverseScores(r[i]);
      r := r[i := reversed];
    }
  }

  /** `reverseScoreboardGroups` as written: the course definition the
      standings carry is the fetcher's own snapshot object, and its
      assignments are reversed in place. */
  method ReverseScoreboardGroups(standings: R.Standings) returns (r: R.Standings)
    modifies standings.deadlines
    ensures standings.deadlines.assignments == Reversed(old(standings.deadlines.assignments))
    ensures standings.deadlines.scoring == old(standings.deadlines.scoring)
    ensures standings.deadlines.policies == old(standings.deadlines.policies)
    ensures standings.deadlines.groups == old(standings.deadlines.groups)
    ensures r.deadlines == standings.deadlines && |r.users| == |standings.users|
    ensures forall i :: 0 <= i < |r.users| ==> r.users[i] == standings.users[i].(groups := Reversed(standings.users[i].groups))
  {
    var dl := standings.deadlines;
    var assignments := ReverseSeq(dl.assignments);
    dl.assignments := assignments;
    var users := ReverseEachScores(standings.users);
    r := standings.(users := users);
  }

  /** The snapshot the fetcher serves is the one the standings page
      reversed: after one render the fetcher hands out the assignments in
      reverse order, and after a second render in the original order again. */
  lemma SharedSnapshotFlips(assignments: seq<D.TaskGroup>)
    ensures Reversed(Reversed(assignments)) == assignments
    ensures |assignments| >= 2 && assignments[0] != assignments[|assignments| - 1] ==> Reversed(assignments) != assignments
  {
    ReversedReversed(assignments);
    if |assignments| >= 2 && assignments[0] != assignments[|assignments| - 1] {
      ReversedAt(assignments, 0);
    }
  }

  /** What a render of the standings does to the fetcher: the group's
      definition as the fetcher serves it afterwards is reversed. */
  method RenderStandingsAsWritten(fetcher: F.Fetcher, group: string, standings: R.Standings) returns (r: R.Standings)
    requires fetcher.GroupDeadlines(group) == Some(standings.deadlines)
    modifies standings.deadlines
    ensures fetcher.GroupDeadlines(group) == Some(standings.deadlines)
    ensures fetcher.GroupDeadlines(group).value.assignments == Reversed(old(standings.deadlines.assignments))
  {
    r := ReverseScoreboardGroups(standings);
  }

  /** The corrected reversal: the standings get a reversed copy of the
      course definition and the fetcher's snapshot stays as it was. */
  method ReverseScoreboardGroupsCopy(standings: R.Standings) returns (r: R.Standings)
    ensures fresh(r.deadlines)
    ensures r.deadlines.assignments == Reversed(standings.deadlines.assignments)
    ensures r.deadlines.scoring == standings.deadlines.scoring
    ensures r.deadlines.policies == standings.deadlines.policies && r.deadlines.groups == standings.deadlines.groups
    ensures |r.users| == |standings.users|
    ensures forall i :: 0 <= i < |r.users| ==> r.users[i] == standings.users[i].(groups := Reversed(standings.users[i].groups))
  {
    var assignments := ReverseSeq(standings.deadlines.assignments);
    var dl := new D.Deadlines(assignments, standings.deadlines.scoring);
    dl.policies, dl.groups := standings.deadlines.policies, standings.deadlines.groups;
    var users := ReverseEachScores(standings.users);
    r := R.Standings(dl, users);
  }

  /** With the corrected reversal the fetcher keeps serving the definition
      in its original order, however many times the page is rendered. */
  method RenderStandingsCorrected(fetcher: F.Fetcher, group: string, standings: R.Standings) returns (r: R.Standings)
    requires fetcher.GroupDeadlines(group) == Some(standings.deadlines)
    ensures fetcher.GroupDeadlines(group) == Some(standings.deadlines)
    ensures standings.deadlines.assignments == old(standings.deadlines.assignments)
    ensures r.deadlines.assignments == Reversed(standings.deadlines.assignments)
  {
    r := ReverseScoreboardGroupsCopy(standings);
  }

  // ------------------------------------------------------------ pages on error

  /** What the home page gets to show: the page, or a crash of the handler. */
  datatype HomePage = Crash | Home(scores: Option<R.UserScores>, error: Option<string>)

  /** `RenderHomePage` as written: the scores are reversed before the error
      is looked at, so an error (a nil result) dereferences nil. */
  function RenderHomeAsWritten(result: Result<R.UserScores>): (page: HomePage)
    ensures result.Failure? ==> page == Crash
    ensures result.Success? ==> page == Home(Some(result.value.(groups := Reversed(result.value.groups))), None)
  {
    if result.Failure? then Crash
    else Home(Some(result.value.(groups := Reversed(result.value.groups))), None)
  }

  /** The intended page: reverse only a result that exists, and show the
      error otherwise. */
  function RenderHome(result: Result<R.UserScores>): (page: HomePage)
    ensures page != Crash
    ensures result.Failure? ==> page == Home(None, Some(result.error))
  {
    if result.Failure? then Home(None, Some(result.error))
    else RenderHomeAsWritten(result)
  }

  /** What a standings page gets to show: the page, or a crash of the handler. */
  datatype StandingsPage = StandingsCrash | StandingsShown(standings: Option<R.Standings>, error: Option<string>)

  /** `doRenderStandingsPage` and `RenderStandingsCheaterPage` as written:
      the scoreboard is reversed before the error is looked at, so an error
      (a nil result, such as "No deadlines found" for an unknown group)
      dereferences nil; a result is reversed in place and shown. */
  method RenderStandingsPageAsWritten(result: Result<R.Standings>) returns (page: StandingsPage)
    modifies if result.Success? then {result.value.deadlines} else {}
    ensures result.Failure? ==> page == StandingsCrash
    ensures result.Success? ==>
      && page.StandingsShown? && page.error.None? && page.standings.Some?
      && page.standings.value.deadlines == result.value.deadlines
      && result.value.deadlines.assignments == Reversed(old(result.value.deadlines.assignments))
      && |page.standings.value.users| == |result.value.users|
      && forall i :: 0 <= i < |result.value.users| ==>
           page.standings.value.users[i] == result.value.users[i].(groups := Reversed(result.value.users[i].groups))
  {
    if result.Failure? {
      return StandingsCrash;
    }
    var r := ReverseScoreboardGroups(result.value);
    return StandingsShown(Some(r), None);
  }

  /** The intended standings page: the error is shown when there is one,
      and otherwise a reversed copy, so the handler never crashes and the
      scorer's definition keeps its order. */
  method RenderStandingsPage(result: Result<R.Standings>) returns (page: StandingsPage)
    ensures page != StandingsCrash
    ensures result.Failure? ==> page == StandingsShown(None, Some(result.error))
    ensures result.Success? ==>
      && page.error.None? && page.standings.Some? && fresh(page.standings.value.deadlines)
      && page.standings.value.deadlines.assignments == Reversed(result.value.deadlines.assignments)
      && |page.standings.value.users| == |result.value.users|
      && forall i :: 0 <= i < |result.value.users| ==>
           page.standings.value.users[i] == result.value.users[i].(groups := Reversed(result.value.users[i].groups))
  {
    if result.Failure? {
      return StandingsShown(None, Some(result.error));
    }
    var r := ReverseScoreboardGroupsCopy(result.value);
    return StandingsShown(Some(r), None);
  }

  /** The two agree on every successful result; on every error (such as
      "No deadlines found") the page as written crashes. */
  lemma RenderHomeDiffersOnlyOnError(result: Result<R.UserScores>)
    ensures result.Success? ==> RenderHome(result) == RenderHomeAsWritten(result)
    ensures result.Failure? ==> RenderHomeAsWritten(result) == Crash && RenderHome(result) != Crash
  {
  }
}
