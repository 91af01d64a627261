/** Name clean-up shared by the hosting-platform clients
    (internal/platform/base/base_client.go). Transliteration to Latin is a
    library call and is a parameter here; only the character filter that
    follows it and the login rewrite are modelled. */
module ClientBase {

  /** Transliteration of a name to English, supplied by a library. */
  type Transliterator = string -> string

  // ------------------------------------------------------------ CleanupName

  predicate IsNameMark(c: char) { c == '-' || c == '\'' }

  /** The `strings.Map` filter: drops every '-' and '\'', keeps the rest. */
  function StripNameMarks(s: string): (r: string)
    ensures |r| <= |s|
    ensures forall i :: 0 <= i < |r| ==> !IsNameMark(r[i])
    ensures (forall i :: 0 <= i < |s| ==> !IsNameMark(s[i])) ==> r == s
  {
    if s == [] then []
    else (if IsNameMark(s[0]) then [] else [s[0]]) + StripNameMarks(s[1..])
  }

  /** Transliterates a person's name and removes dashes and apostrophes, so
      the result can be one '-'-separated part of a project name. */
  function CleanupName(translit: Transliterator, name: string): (r: string)
    ensures forall i :: 0 <= i < |r| ==> r[i] != '-' && r[i] != '\''
  {
    StripNameMarks(translit(name))
  }

  /** The filter distributes over concatenation: together with its action on
      a single character, every kept character survives in order. */
  lemma {:induction false} StripNameMarksAppend(a: string, b: string)
    ensures StripNameMarks(a + b) == StripNameMarks(a) + StripNameMarks(b)
    decreases |a|
  {
    if a != [] {
      var head := if IsNameMark(a[0]) then [] else [a[0]];
      var ab := a + b;
      assert ab[0] == a[0] && ab[1..] == a[1..] + b;
      assert StripNameMarks(ab) == head + StripNameMarks(a[1..] + b);
      StripNameMarksAppend(a[1..], b);
      assert StripNameMarks(a) == head + StripNameMarks(a[1..]);
    } else {
      assert a + b == b;
    }
  }

  lemma StripNameMarksChar(c: char)
    ensures StripNameMarks([c]) == if IsNameMark(c) then [] else [c]
  {
    assert [c][1..] == [];
  }

  lemma StripNameMarksIdempotent(s: string)
    ensures StripNameMarks(StripNameMarks(s)) == StripNameMarks(s)
  {
  }

  // ----------------------------------------------------------- CleanupLogin

  predicate NoDoubleUnderscore(s: string) {
    forall i :: 0 <= i < |s| - 1 ==> !(s[i] == '_' && s[i + 1] == '_')
  }

  /** The characters of `s` other than '_', in order. */
  function NonUnderscores(s: string): string {
    if s == [] then [] else (if s[0] == '_' then [] else [s[0]]) + NonUnderscores(s[1..])
  }

  /** `strings.ReplaceAll(login, "__", "")`: occurrences of "__" are found
      left to right without overlap and removed. */
  function CleanupLogin(login: string): (r: string)
    ensures NoDoubleUnderscore(r)
    ensures |r| <= |login|
    ensures login != [] && login[0] != '_' ==> r != [] && r[0] == login[0]
  {
    if |login| >= 2 && login[0] == '_' && login[1] == '_' then CleanupLogin(login[2..])
    else if login == [] then []
    else [login[0]] + CleanupLogin(login[1..])
  }

  function Underscores(k: nat): (s: string)
    ensures |s| == k && forall i :: 0 <= i < k ==> s[i] == '_'
  {
    seq(k, _ => '_')
  }

  /** A maximal run of k underscores becomes k mod 2 underscores. */
  lemma {:induction false} CleanupLoginRun(k: nat, rest: string)
    requires rest == [] || rest[0] != '_'
    ensures CleanupLogin(Underscores(k) + rest) == Underscores(k % 2) + CleanupLogin(rest)
    decreases k
  {
    if k >= 2 {
      var j: nat := k - 2;
      RunStep(j, k, rest);
      CleanupLoginRun(j, rest);
      ParityStep(j, k);
    } else if k == 1 {
      LoneUnderscore(rest);
      assert k % 2 == 1;
    } else {
      assert Underscores(k) + rest == rest;
      assert k % 2 == 0;
    }
  }

  /** A single '_' before a non-underscore is kept. */
  lemma LoneUnderscore(rest: string)
    requires rest == [] || rest[0] != '_'
    ensures CleanupLogin(Underscores(1) + rest) == Underscores(1) + CleanupLogin(rest)
  {
    var s := Underscores(1) + rest;
    assert s[1..] == rest;
  }

  /** A leading "__" is removed. */
  lemma RunStep(j: nat, k: nat, rest: string)
    requires k == j + 2
    ensures CleanupLogin(Underscores(k) + rest) == CleanupLogin(Underscores(j) + rest)
  {
    var s := Underscores(k) + rest;
    assert s[0] == '_' && s[1] == '_';
    assert s[2..] == Underscores(j) + rest;
  }

  lemma ParityStep(j: nat, k: nat)
    requires k == j + 2
    ensures j % 2 == k % 2
  {
  }

  /** Letters, digits and every other character except '_' are kept in order. */
  lemma {:induction false} CleanupLoginKeepsOthers(login: string)
    ensures NonUnderscores(CleanupLogin(login)) == NonUnderscores(login)
    decreases |login|
  {
    if |login| >= 2 && login[0] == '_' && login[1] == '_' {
      CleanupLoginKeepsOthers(login[2..]);
      assert login[1..][1..] == login[2..];
    } else if login != [] {
      CleanupLoginKeepsOthers(login[1..]);
      var r := CleanupLogin(login);
      assert r == [login[0]] + CleanupLogin(login[1..]);
      assert r[1..] == CleanupLogin(login[1..]);
    }
  }

  /** A login without "__" is left as it is. */
  lemma {:induction false} CleanupLoginFixes(login: string)
    requires NoDoubleUnderscore(login)
    ensures CleanupLogin(login) == login
    decreases |login|
  {
    if login != [] {
      assert !(|login| >= 2 && login[0] == '_' && login[1] == '_');
      CleanupLoginFixes(login[1..]);
    }
  }

  lemma CleanupLoginIdempotent(login: string)
    ensures CleanupLogin(CleanupLogin(login)) == CleanupLogin(login)
  {
    CleanupLoginFixes(CleanupLogin(login));
  }

  // ------------------------------------------------------ project-name parts

  /** Splits at the first '-': the part before it and the part after it
      (the whole string and "" when there is none). */
  function SplitAtDash(s: string): (parts: (string, string))
    decreases |s|
  {
    if s == [] then ("", "")
    else if s[0] == '-' then ("", s[1..])
    else
      var p := SplitAtDash(s[1..]);
      ([s[0]] + p.0, p.1)
  }

  lemma {:induction false} SplitAtDashJoin(x: string, y: string)
    requires forall i :: 0 <= i < |x| ==> x[i] != '-'
    ensures SplitAtDash(x + "-" + y) == (x, y)
    decreases |x|
  {
    if x != [] {
      assert (x + "-" + y)[1..] == x[1..] + "-" + y;
      SplitAtDashJoin(x[1..], y);
      assert [x[0]] + x[1..] == x;
    } else {
      assert x + "-" + y == ['-'] + y;
    }
  }
}
