/** The mock server's routes (`main` and the path handling of the user handlers in
    cmd/test-server/gh-test-server.go) and the paths that the client asks for. */
module Router {
  import opened Text

  datatype Route =
    | Candidates | Jobs | Applications | Users | UserRoles
    | UserByID(id: int) | UserJobPermissions(id: int) | UserFutureJobPermissions(id: int)
    | BadUserID | NotFound

  const USERS: string := "/v1/users/"

  /** `getUserIDFromPath` with the users prefix */
  function GetUserIDFromPath(path: string): Option<int> {
    var parts := Split(TrimLast(TrimPrefix(path, USERS), '/'), {'/'});
    if parts[0] == "" then None else Atoi(parts[0])
  }

  /** The user ID that the two permission handlers read: they trim no trailing slash. */
  function PermissionsUserID(path: string): Option<int> {
    Atoi(Split(TrimPrefix(path, USERS), {'/'})[0])
  }

  /** The segments that the users subtree tells apart. */
  function Segments(path: string): seq<string> {
    Split(TrimLast(TrimPrefix(path, USERS), '/'), {'/'})
  }

  function WithID(id: Option<int>, route: int -> Route): Route {
    match id case Some(n) => route(n) case None => BadUserID
  }

  /** The handler registered for the users subtree, and the handler it calls. */
  function UsersRoute(path: string): Route {
    var parts := Segments(path);
    if |parts| == 1 then
      if Atoi(parts[0]).None? then NotFound else WithID(GetUserIDFromPath(path), n => UserByID(n))
    else if |parts| == 3 && parts[1] == "permissions" then
      if parts[2] == "jobs" then WithID(PermissionsUserID(path), n => UserJobPermissions(n))
      else if parts[2] == "future_jobs" then WithID(PermissionsUserID(path), n => UserFutureJobPermissions(n))
      else NotFound
    else NotFound
  }

  /** The request multiplexer: exact paths, and every path below the users prefix. */
  function RouteOf(path: string): Route {
    if path == "/v1/candidates" then Candidates
    else if path == "/v1/jobs" then Jobs
    else if path == "/v1/applications" then Applications
    else if path == "/v1/users" then Users
    else if path == "/v1/user_roles" then UserRoles
    else if USERS <= path then UsersRoute(path)
    else NotFound
  }

  // ---- the paths of the client ----

  function UserPath(id: int): string { USERS + Itoa(id) }

  function JobsPath(id: int): string { USERS + Itoa(id) + "/permissions/jobs" }

  function FutureJobsPath(id: int): string { USERS + Itoa(id) + "/permissions/future_jobs" }

  lemma SplitThree(a: string, b: string, c: string)
    requires '/' !in a && '/' !in b && '/' !in c
    ensures Split(a + "/" + b + "/" + c, {'/'}) == [a, b, c]
  {
    assert Free(a, {'/'}) && Free(b, {'/'}) && Free(c, {'/'});
    SplitFree(a, {'/'});
    SplitFree(b, {'/'});
    SplitFree(c, {'/'});
    SplitAt(b, '/', c, {'/'});
    SplitAt(a, '/', b + "/" + c, {'/'});
    assert a + "/" + b + "/" + c == a + ['/'] + (b + "/" + c);
  }

  lemma ItoaNoSlash(id: int)
    ensures '/' !in Itoa(id)
  {
    ItoaChars(id);
  }

  /** The permission paths have this shape, with or without a trailing slash. */
  function Spelled(digits: string, kind: string, slash: bool): string {
    USERS + (digits + "/permissions/" + kind + if slash then "/" else "")
  }

  lemma SpelledParts(digits: string, kind: string, slash: bool)
    requires '/' !in digits && '/' !in kind && kind != ""
    ensures var path := Spelled(digits, kind, slash);
            && Segments(path) == [digits, "permissions", kind]
            && PermissionsUserID(path) == Atoi(digits)
  {
    var body := digits + "/permissions/" + kind;
    TrimPrefixOf(USERS, body + if slash then "/" else "");
    assert body[|body| - 1] == kind[|kind| - 1] && kind[|kind| - 1] in kind;
    TrimLastOf(body, '/', slash);
    BodyText(digits, kind);
    SplitThree(digits, "permissions", kind);
    FirstSegment(digits, "permissions/" + kind + if slash then "/" else "");
    RestText(digits, kind, if slash then "/" else "");
  }

  lemma TrimPrefixOf(prefix: string, rest: string)
    ensures TrimPrefix(prefix + rest, prefix) == rest
  {
  }

  lemma TrimLastOf(body: string, c: char, last: bool)
    requires body != "" && body[|body| - 1] != c
    ensures TrimLast(body + if last then [c] else "", c) == body
  {
  }

  lemma BodyText(digits: string, kind: string)
    ensures digits + "/permissions/" + kind == digits + "/" + "permissions" + "/" + kind
  {
  }

  lemma RestText(digits: string, kind: string, end: string)
    ensures digits + "/permissions/" + kind + end == digits + ['/'] + ("permissions/" + kind + end)
  {
  }

  lemma FirstSegment(digits: string, tail: string)
    requires '/' !in digits
    ensures Split(digits + ['/'] + tail, {'/'})[0] == digits
  {
    assert Free(digits, {'/'});
    SplitFree(digits, {'/'});
    SplitAt(digits, '/', tail, {'/'});
  }

  /** No path below the users prefix is one of the exact paths. */
  lemma UsersSubtree(rest: string)
    ensures RouteOf(USERS + rest) == UsersRoute(USERS + rest)
  {
    assert (USERS + rest)[4] == 'u' && (USERS + rest)[8] == 's' && |USERS + rest| >= 10;
    assert "/v1/candidates"[4] == 'c' && "/v1/jobs"[4] == 'j' && "/v1/applications"[4] == 'a';
    assert |"/v1/users"| == 9 && "/v1/user_roles"[8] == '_';
  }

  /** Every spelling of a permission path is routed by its digits. */
  lemma SpelledRoute(digits: string, slash: bool)
    requires '/' !in digits
    ensures RouteOf(Spelled(digits, "jobs", slash)) == WithID(Atoi(digits), n => UserJobPermissions(n))
    ensures RouteOf(Spelled(digits, "future_jobs", slash)) == WithID(Atoi(digits), n => UserFutureJobPermissions(n))
  {
    SpelledParts(digits, "jobs", slash);
    SpelledParts(digits, "future_jobs", slash);
    SpelledInSubtree(digits, "jobs", slash);
    SpelledInSubtree(digits, "future_jobs", slash);
  }

  lemma SpelledInSubtree(digits: string, kind: string, slash: bool)
    ensures RouteOf(Spelled(digits, kind, slash)) == UsersRoute(Spelled(digits, kind, slash))
  {
  }

  lemma ClientPaths(id: int)
    ensures JobsPath(id) == Spelled(Itoa(id), "jobs", false)
    ensures FutureJobsPath(id) == Spelled(Itoa(id), "future_jobs", false)
  {
    EndTexts();
    SpelledText(Itoa(id), "jobs");
    SpelledText(Itoa(id), "future_jobs");
  }

  lemma EndTexts()
    ensures "/permissions/" + "jobs" == "/permissions/jobs" && "/permissions/" + "future_jobs" == "/permissions/future_jobs"
  {
  }

  lemma SpelledText(digits: string, kind: string)
    ensures Spelled(digits, kind, false) == USERS + digits + ("/permissions/" + kind)
  {
  }

  /** Main result, path round trip: for every 64-bit id the client's paths reach the matching handler,
      which reads the same id back. */
  lemma PathRoundTrip(id: int)
    requires MIN_INT64 <= id <= MAX_INT64
    ensures RouteOf("/v1/users") == Users && RouteOf("/v1/user_roles") == UserRoles
    ensures RouteOf(UserPath(id)) == UserByID(id)
    ensures RouteOf(JobsPath(id)) == UserJobPermissions(id)
    ensures RouteOf(FutureJobsPath(id)) == UserFutureJobPermissions(id)
  {
    AtoiItoa(id);
    ItoaNoSlash(id);
    ClientPaths(id);
    SpelledRoute(Itoa(id), false);
    UsersSubtree(Itoa(id));
    UserPathRoute(id);
  }

  lemma UserPathRoute(id: int)
    requires MIN_INT64 <= id <= MAX_INT64
    ensures UsersRoute(UserPath(id)) == UserByID(id)
  {
    var digits := Itoa(id);
    AtoiItoa(id);
    ItoaChars(id);
    ItoaNoSlash(id);
    assert UserPath(id)[|USERS|..] == digits;
    assert digits[|digits| - 1] in digits;
    assert Free(digits, {'/'});
    SplitFree(digits, {'/'});
  }

  /** `path` spells `id` in a permission path of that kind, give or take one trailing slash. */
  ghost predicate Spells(path: string, kind: string, id: int) {
    exists digits: string, slash: bool ::
      '/' !in digits && Atoi(digits) == Some(id) && path == Spelled(digits, kind, slash)
  }

  /** Main result, converse: each permission handler answers for `id` exactly on the paths that spell it. */
  lemma PermissionRoutesExactly(path: string, id: int)
    ensures RouteOf(path) == UserJobPermissions(id) <==> Spells(path, "jobs", id)
    ensures RouteOf(path) == UserFutureJobPermissions(id) <==> Spells(path, "future_jobs", id)
  {
    forall digits: string, slash: bool | '/' !in digits
      ensures RouteOf(Spelled(digits, "jobs", slash)) == WithID(Atoi(digits), n => UserJobPermissions(n))
      ensures RouteOf(Spelled(digits, "future_jobs", slash)) == WithID(Atoi(digits), n => UserFutureJobPermissions(n))
    {
      SpelledRoute(digits, slash);
    }
    if RouteOf(path).UserJobPermissions? {
      PermissionShape(path);
      var digits, slash := SpellingOf(path, "jobs");
    }
    if RouteOf(path).UserFutureJobPermissions? {
      PermissionShape(path);
      var digits, slash := SpellingOf(path, "future_jobs");
    }
  }

  lemma PermissionShape(path: string)
    requires RouteOf(path).UserJobPermissions? || RouteOf(path).UserFutureJobPermissions?
    ensures USERS <= path && |Segments(path)| == 3 && Segments(path)[1] == "permissions"
    ensures Segments(path)[2] == if RouteOf(path).UserJobPermissions? then "jobs" else "future_jobs"
  {
  }

  lemma SpellingOf(path: string, kind: string) returns (digits: string, slash: bool)
    requires USERS <= path && |Segments(path)| == 3
    requires Segments(path)[1] == "permissions" && Segments(path)[2] == kind
    ensures '/' !in digits && path == Spelled(digits, kind, slash)
  {
    var rest := TrimPrefix(path, USERS);
    var trimmed := TrimLast(rest, '/');
    var parts := Segments(path);
    digits, slash := parts[0], trimmed != rest;
    SplitParts(trimmed, {'/'});
    assert Free(digits, {'/'});
    JoinSplit(trimmed, '/');
    JoinThree(parts);
    assert path == USERS + rest;
    BodyText(digits, kind);
    assert rest == trimmed + if slash then "/" else "";
  }

  lemma JoinThree(parts: seq<string>)
    requires |parts| == 3
    ensures Join(parts, "/") == parts[0] + "/" + parts[1] + "/" + parts[2]
  {
    assert parts[..2][..1] == [parts[0]];
    assert Join(parts[..2], "/") == parts[0] + "/" + parts[1];
  }

  // ---- the other routes ----

  /** `path` spells `id` as the path of a user, give or take one trailing slash. */
  ghost predicate SpellsUser(path: string, id: int) {
    exists digits: string, slash: bool :: '/' !in digits && Atoi(digits) == Some(id) && path == SpelledUser(digits, slash)
  }

  function SpelledUser(digits: string, slash: bool): string { USERS + (digits + if slash then "/" else "") }

  lemma SpelledUserRoute(digits: string, slash: bool)
    requires '/' !in digits && digits != ""
    ensures RouteOf(SpelledUser(digits, slash)) == if Atoi(digits).None? then NotFound else UserByID(Atoi(digits).value)
  {
    assert digits[|digits| - 1] in digits;
    UsersSubtree(digits + if slash then "/" else "");
    TrimPrefixOf(USERS, digits + if slash then "/" else "");
    TrimLastOf(digits, '/', slash);
    assert Free(digits, {'/'});
    SplitFree(digits, {'/'});
  }

  /** The user handler answers for `id` exactly on the paths that spell it. */
  lemma UserRouteExactly(path: string, id: int)
    ensures RouteOf(path) == UserByID(id) <==> SpellsUser(path, id)
  {
    forall digits: string, slash: bool | '/' !in digits && Atoi(digits) == Some(id)
      ensures RouteOf(SpelledUser(digits, slash)) == UserByID(id)
    {
      SpelledUserRoute(digits, slash);
    }
    if RouteOf(path).UserByID? {
      var digits, slash := UserSpelling(path);
      SpelledUserRoute(digits, slash);
    }
  }

  lemma UserShape(path: string)
    requires RouteOf(path).UserByID?
    ensures USERS <= path && |Segments(path)| == 1 && Segments(path)[0] != ""
  {
  }

  lemma UserSpelling(path: string) returns (digits: string, slash: bool)
    requires RouteOf(path).UserByID?
    ensures '/' !in digits && digits != "" && path == SpelledUser(digits, slash)
  {
    UserShape(path);
    var rest := TrimPrefix(path, USERS);
    var trimmed := TrimLast(rest, '/');
    digits, slash := Segments(path)[0], trimmed != rest;
    SplitParts(trimmed, {'/'});
    assert Free(digits, {'/'});
    JoinSplit(trimmed, '/');
    assert Join([digits], "/") == digits;
    assert path == USERS + rest && rest == trimmed + if slash then "/" else "";
  }

  /** The users subtree reports a bad ID exactly on a permission path whose ID is no 64-bit number. */
  lemma BadUserIDExactly(path: string)
    ensures RouteOf(path) == BadUserID <==>
            exists digits: string, kind: string, slash: bool ::
              '/' !in digits && Atoi(digits).None? && kind in {"jobs", "future_jobs"} && path == Spelled(digits, kind, slash)
  {
    forall digits: string, slash: bool | '/' !in digits && Atoi(digits).None?
      ensures RouteOf(Spelled(digits, "jobs", slash)) == BadUserID && RouteOf(Spelled(digits, "future_jobs", slash)) == BadUserID
    {
      SpelledRoute(digits, slash);
    }
    if RouteOf(path) == BadUserID {
      BadShape(path);
      var digits, slash := SpellingOf(path, Segments(path)[2]);
      SpelledRoute(digits, slash);
    }
  }

  lemma BadShape(path: string)
    requires RouteOf(path) == BadUserID
    ensures USERS <= path && |Segments(path)| == 3 && Segments(path)[1] == "permissions"
    ensures Segments(path)[2] in {"jobs", "future_jobs"}
  {
  }

  /** The five lists have one path each. */
  lemma ListRoutesExactly(path: string)
    ensures RouteOf(path) == Candidates <==> path == "/v1/candidates"
    ensures RouteOf(path) == Jobs <==> path == "/v1/jobs"
    ensures RouteOf(path) == Applications <==> path == "/v1/applications"
    ensures RouteOf(path) == Users <==> path == "/v1/users"
    ensures RouteOf(path) == UserRoles <==> path == "/v1/user_roles"
  {
  }
}
