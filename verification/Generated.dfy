/** The connector against the mock server on the data that `initMockData` generates, whatever is drawn
    (cmd/test-server/gh-test-server.go with pkg/client and pkg/connector). */
module Generated {
  import opened Text
  import opened Client
  import opened Roles
  import opened Grants
  import opened Runs
  import opened MockServer
  import opened MockData

  /** The tables as `initMockData` leaves them. */
  ghost predicate Initial(store: Store, next: int) {
    && IsUserTable(store.users)
    && Filled(Numbers(1, 51), Numbers(1, 76), USER_ROLES, store.jobs, store.futures, next)
  }

  /** The start of `main`: the data that the server then answers from. */
  method Start() returns (store: Store, next: int)
    ensures Initial(store, next)
  {
    var generator := new Generator();
    var users, jobs := generator.InitMockData();
    store := Store(users, generator.mockUserJobPermissionsMap, generator.mockUserFutureJobPermissionsMap);
    next := generator.nextPermissionID;
  }

  lemma {:induction false} FindFirst(users: seq<User>, i: nat)
    requires i < |users| && forall j | 0 <= j < i :: users[j].id != users[i].id
    ensures FindUser(users, users[i].id) == Some(users[i])
  {
    if i > 0 {
      FindFirst(users[1..], i - 1);
    }
  }

  lemma FindInTable(users: seq<User>, id: int)
    requires IsUserTable(users) && 1 <= id <= 50
    ensures FindUser(users, id) == Some(User(id, id % 15 == 0))
  {
    FindFirst(users, id - 1);
  }

  /** A generated user has at most 28 job permissions and at most 8 future ones, with allowed roles. */
  lemma GeneratedLists(store: Store, next: int, id: int)
    requires Initial(store, next) && 1 <= id <= 50
    ensures |JobsOf(store, id)| <= 28 && forall p | p in JobsOf(store, id) :: JobRoleAllowed(USER_ROLES, p.userRoleID)
    ensures |FuturesOf(store, id)| <= 8 && forall p | p in FuturesOf(store, id) :: FutureRoleAllowed(USER_ROLES, p.userRoleID)
  {
    assert Numbers(1, 51)[id - 1] == id;
    assert UserFits(store.jobs[id], store.futures[id], Numbers(1, 76), USER_ROLES);
  }

  lemma GeneratedMember(store: Store, next: int, id: int)
    requires Initial(store, next) && 1 <= id <= 50 && id % 15 != 0
    ensures Member(store, id)
    ensures |JobsOf(store, id)| <= PAGE_SIZE && |FuturesOf(store, id)| <= PAGE_SIZE
  {
    FindInTable(store.users, id);
    GeneratedLists(store, next, id);
  }

  /** Main result, generated data: for every generated user who is no Site Admin, whatever was drawn, a run
      ends exactly at its first attempt without a fault and grants exactly the generated permissions. */
  lemma GeneratedRun(base: string, resolves: bool, store: Store, next: int, id: int, run: seq<Attempt>)
    requires Base(base) && Initial(store, next) && 1 <= id <= 50 && id % 15 != 0
    requires IsRun(WorldOf(base, resolves, store, Itoa(id)), Itoa(id), "", run)
    ensures Ended(run) <==> Clear(run) >= 1
    ensures Ended(run) ==>
              Delivered(Runs.Accepted(run)) ==
              JobGrants(JobsOf(store, id), Itoa(id)) + FutureGrants(FuturesOf(store, id), Itoa(id))
  {
    GeneratedMember(store, next, id);
    MockRun(base, resolves, store, id, run);
  }

  /** The other three users: the Site Admin grant, at the first attempt whose user request succeeds. */
  lemma GeneratedAdminRun(base: string, resolves: bool, store: Store, next: int, id: int, run: seq<Attempt>)
    requires Initial(store, next) && 1 <= id <= 50 && id % 15 == 0
    requires IsRun(WorldOf(base, resolves, store, Itoa(id)), Itoa(id), "", run)
    ensures Ended(run) <==> exists a | a in run :: !a.faults.user
    ensures Delivered(Runs.Accepted(run)) == if Ended(run) then {Grant(SITE_ADMIN, Itoa(id))} else {}
  {
    FindInTable(store.users, id);
    UserAnswered(store, id);
    SiteAdminRun(WorldOf(base, resolves, store, Itoa(id)), Itoa(id), "", run);
  }

  // ---- what the grants refer to ----

  const ADMINS: set<int> := {1, 4, 5, 6}
  const INTERVIEWERS: set<int> := {2, 3, 7, 8, 9}

  /** The engine's listing of the server's roles. */
  function RoleListing(base: string, resolves: bool, faults: seq<bool>): (seq<string>, Ending) {
    ListRun(Api(base, resolves, RoleLists(USER_ROLES)), FirstURL(base, ROLES_PATH), "", faults)
  }

  /** These are the resources of the job_admin roles and of the Site Admin. */
  ghost predicate ListsAdmins(resources: seq<string>) {
    && (forall roleID :: JobRoleResource(roleID) in resources <==> roleID in ADMINS)
    && (forall roleID :: FutureRoleResource(roleID) in resources <==> roleID in ADMINS)
    && SITE_ADMIN in resources
  }

  lemma GeneratedListing(base: string, resolves: bool, faults: seq<bool>)
    requires Base(base)
    ensures RoleListing(base, resolves, faults).1 == Finished <==> Faultless(faults) >= 1
    ensures RoleListing(base, resolves, faults).1 == Finished ==> ListsAdmins(RoleListing(base, resolves, faults).0)
  {
    MockListing(base, resolves, USER_ROLES, faults);
    OneListed([USER_ROLES], USER_ROLES);
    TableLists();
  }

  lemma TableLists()
    ensures ListsAdmins(Listed([USER_ROLES]))
  {
    AdminTable();
    OneListed([USER_ROLES], USER_ROLES);
    forall roleID
      ensures JobRoleResource(roleID) in Listed([USER_ROLES]) <==> roleID in ADMINS
      ensures FutureRoleResource(roleID) in Listed([USER_ROLES]) <==> roleID in ADMINS
    {
      ListedExactly([USER_ROLES], roleID);
    }
    ListedExactly([USER_ROLES], 0);
  }

  lemma AllowedRoles(roleID: int)
    ensures JobRoleAllowed(USER_ROLES, roleID) ==> roleID in ADMINS + INTERVIEWERS
    ensures FutureRoleAllowed(USER_ROLES, roleID) ==> roleID in ADMINS
  {
  }

  /** The job resource of an interviewer role. */
  predicate OfInterviewer(resource: string) {
    exists roleID | roleID in INTERVIEWERS :: resource == JobRoleResource(roleID)
  }

  lemma Interviewers(roleID: int)
    ensures OfInterviewer(JobRoleResource(roleID)) <==> roleID in INTERVIEWERS
    ensures !OfInterviewer(FutureRoleResource(roleID))
  {
    forall other
      ensures JobRoleResource(roleID) == JobRoleResource(other) <==> roleID == other
      ensures FutureRoleResource(roleID) != JobRoleResource(other)
    {
      ResourceIDs(roleID, other);
      ResourceIDs(other, roleID);
    }
  }

  lemma GrantRefers(jobs: seq<JobPermission>, futures: seq<FutureJobPermission>, principal: string,
                    resources: seq<string>, g: Grant)
    requires forall p | p in jobs :: p.userRoleID in ADMINS + INTERVIEWERS
    requires forall p | p in futures :: p.userRoleID in ADMINS
    requires ListsAdmins(resources)
    ensures g in JobGrants(jobs, principal) ==> (g.resource in resources <==> !OfInterviewer(g.resource))
    ensures g in FutureGrants(futures, principal) ==> g.resource in resources && !OfInterviewer(g.resource)
  {
    if g in JobGrants(jobs, principal) {
      var p :| p in jobs && g == Grant(JobRoleResource(p.userRoleID), principal);
      Interviewers(p.userRoleID);
    }
    if g in FutureGrants(futures, principal) {
      var p :| p in futures && g == Grant(FutureRoleResource(p.userRoleID), principal);
      Interviewers(p.userRoleID);
    }
  }

  /** Main result, references: of what a run for a generated user grants, the listing has every future-job
      resource, and every job resource but those of interviewer roles. */
  lemma GeneratedReferences(base: string, resolves: bool, store: Store, next: int, id: int, run: seq<Attempt>,
                            faults: seq<bool>, g: Grant)
    requires Base(base) && Initial(store, next) && 1 <= id <= 50 && id % 15 != 0
    requires IsRun(WorldOf(base, resolves, store, Itoa(id)), Itoa(id), "", run) && Ended(run)
    requires Faultless(faults) >= 1 && g in Delivered(Runs.Accepted(run))
    ensures g.resource in RoleListing(base, resolves, faults).0 <==> !OfInterviewer(g.resource)
    ensures g in FutureGrants(FuturesOf(store, id), Itoa(id)) ==> g.resource in RoleListing(base, resolves, faults).0
  {
    GeneratedRun(base, resolves, store, next, id, run);
    GeneratedListing(base, resolves, faults);
    GeneratedRoles(store, next, id);
    GrantRefers(JobsOf(store, id), FuturesOf(store, id), Itoa(id), RoleListing(base, resolves, faults).0, g);
  }

  lemma GeneratedRoles(store: Store, next: int, id: int)
    requires Initial(store, next) && 1 <= id <= 50
    ensures forall p | p in JobsOf(store, id) :: p.userRoleID in ADMINS + INTERVIEWERS
    ensures forall p | p in FuturesOf(store, id) :: p.userRoleID in ADMINS
  {
    GeneratedLists(store, next, id);
    forall p | p in JobsOf(store, id) ensures p.userRoleID in ADMINS + INTERVIEWERS {
      AllowedRoles(p.userRoleID);
    }
    forall p | p in FuturesOf(store, id) ensures p.userRoleID in ADMINS {
      AllowedRoles(p.userRoleID);
    }
  }
}
