/** Sign-up and session checks of internal/web/login.go: the name pattern
    and clean-up, the secret-to-group lookup, the order of the sign-up
    checks, the session token and the session gate in front of the pages. */
module Login {
  import opened Wrappers
  import opened Text
  import opened Models

  // ------------------------------------------------------------ names

  /** `nameRe`, `^[A-Za-z-]+$`: one or more Latin letters and dashes. */
  predicate NameValid(name: string) {
    |name| > 0 && forall i :: 0 <= i < |name| ==> IsLetter(name[i]) || name[i] == '-'
  }

  /** `normalizeName`: lower case, then the first letter of every word
      upper case. */
  function NormalizeName(name: string): (r: string)
    ensures |r| == |name|
  {
    Title(ToLower(name))
  }

  /** Position `i` of `s` starts a dash-separated part. */
  predicate PartStart(s: string, i: int)
    requires 0 <= i < |s|
  {
    i == 0 || s[i - 1] == '-'
  }

  /** An accepted name in clean form: the first letter of each part upper
      case, every other letter lower case. */
  predicate Normalized(s: string) {
    NameValid(s) &&
    forall i :: 0 <= i < |s| && s[i] != '-' ==> if PartStart(s, i) then IsUpper(s[i]) else IsLower(s[i])
  }

  /** The clean-up of an accepted name keeps its dashes and its letters
      (up to case) in place, and puts them in clean form. */
  lemma NormalizeNameShape(name: string)
    requires NameValid(name)
    ensures Normalized(NormalizeName(name))
    ensures forall i :: 0 <= i < |name| ==>
      (NormalizeName(name)[i] == '-' <==> name[i] == '-') &&
      ToLowerChar(NormalizeName(name)[i]) == ToLowerChar(name[i])
  {
    var lower := ToLower(name);
    var r := NormalizeName(name);
    forall i | 0 <= i < |name|
      ensures (r[i] == '-' <==> name[i] == '-') && ToLowerChar(r[i]) == ToLowerChar(name[i])
      ensures name[i] != '-' ==> if PartStart(name, i) then IsUpper(r[i]) else IsLower(r[i])
    {
      if i > 0 {
        assert IsSeparator(lower[i - 1]) <==> name[i - 1] == '-';
      }
    }
  }

  /** A name in clean form is its own clean-up. */
  lemma NormalizedIsFixed(s: string)
    requires Normalized(s)
    ensures NormalizeName(s) == s
  {
    var lower := ToLower(s);
    var r := NormalizeName(s);
    forall i | 0 <= i < |s|
      ensures r[i] == s[i]
    {
      if i > 0 {
        assert IsSeparator(lower[i - 1]) <==> s[i - 1] == '-';
      }
    }
  }

  /** Cleaning up an accepted name twice is cleaning it up once. */
  lemma NormalizeNameIdempotent(name: string)
    requires NameValid(name)
    ensures NormalizeName(NormalizeName(name)) == NormalizeName(name)
  {
    NormalizeNameShape(name);
    NormalizedIsFixed(NormalizeName(name));
  }

  // ------------------------------------------------------------ groups

  /** A configured group with the secret its students sign up with. */
  datatype GroupConfig = GroupConfig(name: string, secret: string)

  /** The name of the last configured group with this secret, or "". */
  function LastMatch(groups: seq<GroupConfig>, secret: string): string {
    if groups == [] then ""
    else if groups[|groups| - 1].secret == secret then groups[|groups| - 1].name
    else LastMatch(groups[..|groups| - 1], secret)
  }

  /** The lookup loop of `signupForm`: it does not stop at the first match. */
  method FindGroup(groups: seq<GroupConfig>, secret: string) returns (groupName: string)
    ensures groupName == LastMatch(groups, secret)
  {
    groupName := "";
    for i := 0 to |groups|
      invariant groupName == LastMatch(groups[..i], secret)
    {
      assert groups[..i + 1][..i] == groups[..i];
      if secret == groups[i].secret {
        groupName := groups[i].name;
      }
    }
    assert groups[..|groups|] == groups;
  }

  /** No group with the secret gives ""; otherwise the group that wins is
      the last one with the secret. */
  lemma {:induction false} LastMatchIsLast(groups: seq<GroupConfig>, secret: string)
    ensures (forall i :: 0 <= i < |groups| ==> groups[i].secret != secret) ==> LastMatch(groups, secret) == ""
    ensures forall i :: LastWith(groups, secret, i) ==> LastMatch(groups, secret) == groups[i].name
    decreases |groups|
  {
    if groups != [] {
      var init := groups[..|groups| - 1];
      LastMatchIsLast(init, secret);
      forall i | LastWith(groups, secret, i)
        ensures LastMatch(groups, secret) == groups[i].name
      {
        if i < |init| {
          assert init[i] == groups[i];
          assert LastWith(init, secret, i);
        }
      }
    }
  }

  /** `groups[i]` is the last group with the secret. */
  predicate LastWith(groups: seq<GroupConfig>, secret: string, i: int) {
    0 <= i < |groups| && groups[i].secret == secret &&
    forall j :: i < j < |groups| ==> groups[j].secret != secret
  }

  // ------------------------------------------------------------ sign-up

  const InvalidFirstName := "Invalid first name, use only Latin letters"
  const InvalidLastName := "Invalid last name, use only Latin letters"
  const InvalidSecret := "Invalid secret"
  const AlreadyRegistered := "User is already registered"
  const InternalError := "Internal error, try again later"
  const SessionFailed := "Failed to create session, try again later"

  /** The record `signupForm` asks the database to add. */
  datatype NewUser = NewUser(firstName: string, lastName: string, groupName: string)

  /** What adding a user to the database gives: the stored user, a clash
      with an existing one, or another database error. */
  datatype AddUserResult = Added(user: User) | DuplicateKey | AddFailed

  /** The sign-up form's outcome: the sign-up page with a message, or the
      login redirect after a session was filled for the user. */
  datatype SignupPage = SignupError(message: string) | RedirectToLogin(user: User)

  /** The decision chain of `signupForm`; the database and the session
      store are the parameters `addUser` and `sessionSaved`. */
  function Signup(firstName: string, lastName: string, secret: string, groups: seq<GroupConfig>,
                  addUser: NewUser -> AddUserResult, sessionSaved: bool): SignupPage
  {
    if !NameValid(firstName) then SignupError(InvalidFirstName)
    else if !NameValid(lastName) then SignupError(InvalidLastName)
    else if LastMatch(groups, secret) == "" then SignupError(InvalidSecret)
    else
      match addUser(NewUser(NormalizeName(firstName), NormalizeName(lastName), LastMatch(groups, secret)))
      case DuplicateKey => SignupError(AlreadyRegistered)
      case AddFailed => SignupError(InternalError)
      case Added(user) =>
        if user.gitlabId.Some? || user.gitlabLogin.Some? then SignupError(AlreadyRegistered)
        else if !sessionSaved then SignupError(SessionFailed)
        else RedirectToLogin(user)
  }

  /** `signupForm`: the checks in the source's order, with the lookup loop. */
  method SignupForm(firstName: string, lastName: string, secret: string, groups: seq<GroupConfig>,
                    addUser: NewUser -> AddUserResult, sessionSaved: bool) returns (page: SignupPage)
    ensures page == Signup(firstName, lastName, secret, groups, addUser, sessionSaved)
  {
    if !NameValid(firstName) {
      return SignupError(InvalidFirstName);
    }
    if !NameValid(lastName) {
      return SignupError(InvalidLastName);
    }
    var groupName := FindGroup(groups, secret);
    if groupName == "" {
      return SignupError(InvalidSecret);
    }
    var added := addUser(NewUser(NormalizeName(firstName), NormalizeName(lastName), groupName));
    if added.DuplicateKey? {
      return SignupError(AlreadyRegistered);
    }
    if added.AddFailed? {
      return SignupError(InternalError);
    }
    if added.user.gitlabId.Some? || added.user.gitlabLogin.Some? {
      return SignupError(AlreadyRegistered);
    }
    if !sessionSaved {
      return SignupError(SessionFailed);
    }
    return RedirectToLogin(added.user);
  }

  /** A sign-up goes through exactly when both names are accepted, some
      group has the secret under a non-empty name, the database adds the
      user in clean form without a hosting account, and the session is
      saved; the first failing check decides the message. */
  lemma SignupSucceedsExactly(firstName: string, lastName: string, secret: string, groups: seq<GroupConfig>,
                              addUser: NewUser -> AddUserResult, sessionSaved: bool)
    ensures var page := Signup(firstName, lastName, secret, groups, addUser, sessionSaved);
      var request := NewUser(NormalizeName(firstName), NormalizeName(lastName), LastMatch(groups, secret));
      (page.RedirectToLogin? <==>
        NameValid(firstName) && NameValid(lastName) && LastMatch(groups, secret) != "" &&
        addUser(request).Added? && addUser(request).user.gitlabId.None? &&
        addUser(request).user.gitlabLogin.None? && sessionSaved) &&
      (!NameValid(firstName) ==> page == SignupError(InvalidFirstName)) &&
      (NameValid(firstName) && !NameValid(lastName) ==> page == SignupError(InvalidLastName)) &&
      (NameValid(firstName) && NameValid(lastName) && LastMatch(groups, secret) == "" ==> page == SignupError(InvalidSecret)) &&
      (page.RedirectToLogin? ==>
        Normalized(request.firstName) && Normalized(request.lastName) &&
        exists i :: 0 <= i < |groups| && groups[i].secret == secret && groups[i].name == request.groupName)
  {
    if NameValid(firstName) && NameValid(lastName) {
      NormalizeNameShape(firstName);
      NormalizeNameShape(lastName);
    }
    LastMatchFound(groups, secret);
  }

  /** A non-empty lookup result is the name of a group with the secret. */
  lemma {:induction false} LastMatchFound(groups: seq<GroupConfig>, secret: string)
    ensures LastMatch(groups, secret) != "" ==>
      exists i :: 0 <= i < |groups| && groups[i].secret == secret && groups[i].name == LastMatch(groups, secret)
    decreases |groups|
  {
    if groups != [] && groups[|groups| - 1].secret != secret {
      var init := groups[..|groups| - 1];
      LastMatchFound(init, secret);
      if LastMatch(init, secret) != "" {
        var i :| 0 <= i < |init| && init[i].secret == secret && init[i].name == LastMatch(init, secret);
        assert groups[i] == init[i];
      }
    }
  }

  // ------------------------------------------------------------ sessions

  /** The value stored under the session's token key. */
  datatype SessionValue = Missing | Text(text: string) | NotText

  /** `tryGetToken`: no token when the value is absent, not a string, or
      empty. */
  function TryGetToken(v: SessionValue): (token: Option<string>)
    ensures token.Some? <==> v.Text? && v.text != ""
    ensures token.Some? ==> token.value == v.text
  {
    match v
    case Missing => None
    case NotText => None
    case Text(s) => if |s| == 0 then None else Some(s)
  }

  /** `clearSession`, which runs on every redirect to the sign-up page and
      on logout, stores the empty token. */
  function ClearSession(): SessionValue {
    Text("")
  }

  /** A stored session row. */
  datatype Session = Session(id: nat, userId: nat, token: string)

  /** What the gate in front of the pages does: back to sign-up, on to the
      hosting login, or on to the page with the user and the session. */
  datatype Gate = ToSignup | ToLogin | Proceed(user: User, session: Session)

  /** `validateSession` after `tryFindUserByToken`; the session lookup in the
      database is the parameter `findBySession`. */
  function ValidateSession(v: SessionValue, findBySession: string -> Result<(User, Session)>): (g: Gate)
    ensures TryGetToken(v).None? ==> g == ToSignup
    ensures TryGetToken(v).Some? && findBySession(TryGetToken(v).value).Failure? ==> g == ToSignup
    ensures TryGetToken(v).Some? && findBySession(TryGetToken(v).value).Success? ==>
      var (user, session) := findBySession(TryGetToken(v).value).value;
      if user.gitlabId.None? || user.gitlabLogin.None? then g == ToLogin else g == Proceed(user, session)
  {
    var token := TryGetToken(v);
    if token.None? then ToSignup
    else
      var found := findBySession(token.value);
      if found.Failure? then ToSignup
      else
        var (user, session) := found.value;
        if user.gitlabId.None? || user.gitlabLogin.None? then ToLogin else Proceed(user, session)
  }

  /** Only a user with a hosting account and a session found by its
      non-empty token reaches a page, and after a cleared session every
      request goes back to sign-up. */
  lemma ValidateSessionGuards(v: SessionValue, findBySession: string -> Result<(User, Session)>)
    ensures var g := ValidateSession(v, findBySession);
      g.Proceed? ==>
        v.Text? && v.text != "" && findBySession(v.text) == Success((g.user, g.session)) &&
        g.user.gitlabId.Some? && g.user.gitlabLogin.Some?
    ensures ValidateSession(ClearSession(), findBySession) == ToSignup
  {
    var g := ValidateSession(v, findBySession);
    if g.Proceed? {
      var found := findBySession(v.text);
      assert found.Success?;
      assert found.value == (found.value.0, found.value.1);
    }
  }
}
