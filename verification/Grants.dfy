/** The two-stream grant synchroniser (`userBuilder.Grants` in pkg/connector/users.go) and its whole
    runs: the sync engine calls it again with the returned token until that is empty, and calls
    again with the old token after an error. */
module Grants {
  import opened Text
  import opened Tokens
  import opened Client
  import opened Roles

  datatype Grant = Grant(resource: string, principal: string)

  /** The fixed data that the three endpoints answer from; no `user` stands for an error answer. */
  datatype World = World(base: string, user: Option<User>,
                         jobs: string -> Response<JobPermission>,
                         futures: string -> Response<FutureJobPermission>)

  /** Which of the requests of one call fail in transport, if they are made. */
  datatype Faults = Faults(user: bool, job: bool, future: bool)

  const NO_FAULTS: Faults := Faults(false, false, false)

  datatype Status = Done | Failed | Crashed

  datatype Result = Result(grants: seq<Grant>, nextToken: string, status: Status)

  // ---- what one call computes ----

  datatype Call = Granted(grants: set<Grant>, next: string) | Rejected(status: Status)

  function JobGrants(items: seq<JobPermission>, principal: string): set<Grant> {
    set p | p in items :: Grant(JobRoleResource(p.userRoleID), principal)
  }

  function FutureGrants(items: seq<FutureJobPermission>, principal: string): set<Grant> {
    set p | p in items :: Grant(FutureRoleResource(p.userRoleID), principal)
  }

  function NextToken(t: TokenPair): string {
    if t == TokenPair(REQUEST_COMPLETED, REQUEST_COMPLETED) then "" else Serialize(t)
  }

  function StatusOf<T>(r: Received<T>): Status {
    match r case Items(_) => Done case Error => Failed case Panic => Crashed
  }

  /** The part of a call that follows the user request, for a user who is no Site Admin. */
  function PermissionCall(w: World, userID: int, principal: string, faults: Faults, t: TokenPair): Call {
    var (jobs, t1) := Advance(w.jobs, JobsURL(w.base, userID), t.job, faults.job);
    if !jobs.Items? then Rejected(StatusOf(jobs))
    else
      var (futures, t2) := Advance(w.futures, FutureJobsURL(w.base, userID), t.future, faults.future);
      if !futures.Items? then Rejected(StatusOf(futures))
      else Granted(JobGrants(jobs.items, principal) + FutureGrants(futures.items, principal),
                   NextToken(TokenPair(t1, t2)))
  }

  function CallOf(w: World, principal: string, faults: Faults, token: string): Call {
    match Deserialize(token)
    case None => Rejected(Failed)
    case Some(t) =>
      if faults.user || w.user.None? then Rejected(Failed)
      else if w.user.value.siteAdmin then Granted({Grant(SITE_ADMIN, principal)}, "")
      else PermissionCall(w, w.user.value.id, principal, faults, t)
  }

  /** The requests of one call: the future-job request is made only once the job request succeeded. */
  function PermissionRequests(w: World, userID: int, faults: Faults, t: TokenPair): seq<Request> {
    JobRequests(JobsURL(w.base, userID), t.job) +
    if !Advance(w.jobs, JobsURL(w.base, userID), t.job, faults.job).0.Items? then []
    else FutureRequests(FutureJobsURL(w.base, userID), t.future)
  }

  function RequestsOf(w: World, principal: string, faults: Faults, token: string): seq<Request> {
    match Deserialize(token)
    case None => []
    case Some(t) =>
      [UserRequest(principal)] +
      if faults.user || w.user.None? || w.user.value.siteAdmin then []
      else PermissionRequests(w, w.user.value.id, faults, t)
  }

  /** A result of the call, in whatever order the deduplicating maps were visited. */
  ghost predicate Returns(call: Call, r: Result) {
    match call
    case Granted(grants, next) =>
      r.status == Done && r.nextToken == next && Distinct(r.grants) && ToSet(r.grants) == grants
    case Rejected(status) => r == Result([], "", status)
  }

  /** The grants are the principal's, and name by their decimal texts exactly the role IDs of the items. */
  ghost predicate NameJobRoles(grants: set<Grant>, items: seq<JobPermission>, principal: string) {
    && (forall g | g in grants :: g.principal == principal && exists p | p in items :: NamesJobRole(g.resource, p.userRoleID))
    && (forall p | p in items :: exists g | g in grants :: NamesJobRole(g.resource, p.userRoleID))
  }

  ghost predicate NameFutureRoles(grants: set<Grant>, items: seq<FutureJobPermission>, principal: string) {
    && (forall g | g in grants :: g.principal == principal && exists p | p in items :: NamesFutureRole(g.resource, p.userRoleID))
    && (forall p | p in items :: exists g | g in grants :: NamesFutureRole(g.resource, p.userRoleID))
  }

  /** What the two loops emit for the items of a page, in texts. */
  lemma GrantTexts(jobs: seq<JobPermission>, futures: seq<FutureJobPermission>, principal: string)
    ensures NameJobRoles(JobGrants(jobs, principal), jobs, principal)
    ensures NameFutureRoles(FutureGrants(futures, principal), futures, principal)
  {
    forall id: int ensures NamesJobRole(JobRoleResource(id), id) && NamesFutureRole(FutureRoleResource(id), id) {
      ResourceTexts(id);
    }
    assert forall p | p in jobs :: Grant(JobRoleResource(p.userRoleID), principal) in JobGrants(jobs, principal);
    assert forall p | p in futures :: Grant(FutureRoleResource(p.userRoleID), principal) in FutureGrants(futures, principal);
  }

  // ---- the call ----

  lemma JobGrantsOfIDs(ids: seq<int>, items: seq<JobPermission>, principal: string, grants: seq<Grant>)
    requires Distinct(ids) && (set id | id in ids) == JobRoleIDs(items)
    requires |grants| == |ids| && forall k | 0 <= k < |ids| :: grants[k] == Grant(JobRoleResource(ids[k]), principal)
    ensures Distinct(grants) && ToSet(grants) == JobGrants(items, principal)
  {
    forall i, j | 0 <= i < j < |ids| ensures grants[i] != grants[j] { ResourceIDs(ids[i], ids[j]); }
    forall g | g in JobGrants(items, principal) ensures g in grants {
      var p :| p in items && g == Grant(JobRoleResource(p.userRoleID), principal);
      assert p.userRoleID in JobRoleIDs(items);
      var i :| 0 <= i < |ids| && ids[i] == p.userRoleID;
      assert grants[i] in grants;
    }
    forall i | 0 <= i < |ids| ensures grants[i] in JobGrants(items, principal) {
      assert ids[i] in JobRoleIDs(items);
    }
  }

  lemma FutureGrantsOfIDs(ids: seq<int>, items: seq<FutureJobPermission>, principal: string, grants: seq<Grant>)
    requires Distinct(ids) && (set id | id in ids) == FutureRoleIDs(items)
    requires |grants| == |ids| && forall k | 0 <= k < |ids| :: grants[k] == Grant(FutureRoleResource(ids[k]), principal)
    ensures Distinct(grants) && ToSet(grants) == FutureGrants(items, principal)
  {
    forall i, j | 0 <= i < j < |ids| ensures grants[i] != grants[j] { ResourceIDs(ids[i], ids[j]); }
    forall g | g in FutureGrants(items, principal) ensures g in grants {
      var p :| p in items && g == Grant(FutureRoleResource(p.userRoleID), principal);
      assert p.userRoleID in FutureRoleIDs(items);
      var i :| 0 <= i < |ids| && ids[i] == p.userRoleID;
      assert grants[i] in grants;
    }
    forall i | 0 <= i < |ids| ensures grants[i] in FutureGrants(items, principal) {
      assert ids[i] in FutureRoleIDs(items);
    }
  }

  /** The grants of one page of job permissions: the first of the two loops of `Grants`. */
  method GrantJobRoles(items: seq<JobPermission>, principal: string) returns (roleGrants: seq<Grant>)
    ensures Distinct(roleGrants) && ToSet(roleGrants) == JobGrants(items, principal)
  {
    var unique := ExtractUniqueUserRolesIDs(Jobs(items));
    var ids := unique.value;
    roleGrants := [];
    for i := 0 to |ids|
      invariant |roleGrants| == i
      invariant forall k | 0 <= k < i :: roleGrants[k] == Grant(JobRoleResource(ids[k]), principal)
    {
      roleGrants := roleGrants + [Grant(JobRoleResource(ids[i]), principal)];
    }
    JobGrantsOfIDs(ids, items, principal, roleGrants);
  }

  /** The second loop, over a page of future-job permissions. */
  method GrantFutureRoles(items: seq<FutureJobPermission>, principal: string) returns (roleGrants: seq<Grant>)
    ensures Distinct(roleGrants) && ToSet(roleGrants) == FutureGrants(items, principal)
  {
    var unique := ExtractUniqueUserRolesIDs(Futures(items));
    var ids := unique.value;
    roleGrants := [];
    for i := 0 to |ids|
      invariant |roleGrants| == i
      invariant forall k | 0 <= k < i :: roleGrants[k] == Grant(FutureRoleResource(ids[k]), principal)
    {
      roleGrants := roleGrants + [Grant(FutureRoleResource(ids[i]), principal)];
    }
    FutureGrantsOfIDs(ids, items, principal, roleGrants);
  }

  lemma GrantsTogether(a: seq<Grant>, b: seq<Grant>, jobs: seq<JobPermission>, futures: seq<FutureJobPermission>, principal: string)
    requires Distinct(a) && ToSet(a) == JobGrants(jobs, principal)
    requires Distinct(b) && ToSet(b) == FutureGrants(futures, principal)
    ensures Distinct(a + b) && ToSet(a + b) == JobGrants(jobs, principal) + FutureGrants(futures, principal)
  {
    forall i, j | 0 <= i < |a| && 0 <= j < |b| ensures a[i] != b[j] {
      assert a[i] in ToSet(a) && b[j] in ToSet(b);
      var p :| p in jobs && a[i] == Grant(JobRoleResource(p.userRoleID), principal);
      var q :| q in futures && b[j] == Grant(FutureRoleResource(q.userRoleID), principal);
      ResourceIDs(p.userRoleID, q.userRoleID);
    }
    assert ToSet(a + b) == ToSet(a) + ToSet(b);
  }

  /** The decision at the end of `Grants`: the engine sees the end of the run exactly when both streams
      are completed, and can go on from any other token. */
  method NextTokenOf(tokens: PaginationTokens) returns (nextToken: string)
    ensures var t := TokenPair(tokens.JobPermissionsToken, tokens.FutureJobPermissionsToken);
            && nextToken == NextToken(t)
            && (nextToken == "" <==> t == TokenPair(REQUEST_COMPLETED, REQUEST_COMPLETED))
            && (nextToken != "" ==> Deserialize(nextToken) == Some(t))
  {
    TokenRoundTrip(TokenPair(tokens.JobPermissionsToken, tokens.FutureJobPermissionsToken));
    if tokens.JobPermissionsToken == REQUEST_COMPLETED && tokens.FutureJobPermissionsToken == REQUEST_COMPLETED {
      nextToken := "";
    } else {
      nextToken := Serialize(TokenPair(tokens.JobPermissionsToken, tokens.FutureJobPermissionsToken));
    }
  }

  /** The two permission calls of `Grants`, on the tokens that they advance in place. */
  method GrantsOfPermissions(client: GreenhouseClient, w: World, userID: int, principal: string, faults: Faults,
                             tokens: PaginationTokens)
    returns (r: Result)
    requires client.baseURL == w.base
    modifies client`requested, tokens
    ensures var t := old(TokenPair(tokens.JobPermissionsToken, tokens.FutureJobPermissionsToken));
            && Returns(PermissionCall(w, userID, principal, faults, t), r)
            && client.requested == old(client.requested) + PermissionRequests(w, userID, faults, t)
  {
    var jobPermissions := client.GetJobPermissionsOfAUser(tokens, userID, w.jobs, faults.job);
    if !jobPermissions.Items? {
      return Result([], "", StatusOf(jobPermissions));
    }
    var roleGrants := GrantJobRoles(jobPermissions.items, principal);

    var futurePermissions := client.GetFutureJobPermissionsOfAUser(tokens, userID, w.futures, faults.future);
    if !futurePermissions.Items? {
      return Result([], "", StatusOf(futurePermissions));
    }
    var futureGrants := GrantFutureRoles(futurePermissions.items, principal);
    GrantsTogether(roleGrants, futureGrants, jobPermissions.items, futurePermissions.items, principal);
    roleGrants := roleGrants + futureGrants;

    var nextToken := NextTokenOf(tokens);
    r := Result(roleGrants, nextToken, Done);
  }

  /** `userBuilder.Grants` */
  method GrantsOfUser(client: GreenhouseClient, w: World, principal: string, faults: Faults, pToken: string)
    returns (r: Result)
    requires client.baseURL == w.base
    modifies client`requested
    ensures Returns(CallOf(w, principal, faults, pToken), r)
    ensures client.requested == old(client.requested) + RequestsOf(w, principal, faults, pToken)
  {
    var deserialized := Deserialize(pToken);
    if deserialized.None? {
      return Result([], "", Failed);
    }
    var tokens := new PaginationTokens(deserialized.value.job, deserialized.value.future);

    client.requested := client.requested + [UserRequest(principal)];
    if faults.user || w.user.None? {
      return Result([], "", Failed);
    }
    if w.user.value.siteAdmin {
      return Result([Grant(SITE_ADMIN, principal)], "", Done);
    }
    r := GrantsOfPermissions(client, w, w.user.value.id, principal, faults, tokens);
  }
}
