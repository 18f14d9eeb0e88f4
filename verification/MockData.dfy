/** The permission generator of the mock server (`initMockData` in cmd/test-server/gh-test-server.go):
    nested loops that draw from one counter. Every random choice is arbitrary. */
module MockData {
  import opened Client
  import opened Roles

  // ---- random choices ----

  method Intn(n: int) returns (k: int)
    requires n > 0
    ensures 0 <= k < n
  {
    k :| 0 <= k < n;
  }

  /** The numbers below `n`, each once, in some order. */
  ghost predicate IsPermutation(p: seq<int>, n: nat) {
    |p| == n && Distinct(p) && forall i | 0 <= i < n :: 0 <= p[i] < n
  }

  /** `rand.Perm`: each new number is swapped into an arbitrary earlier place. */
  method Perm(n: nat) returns (p: seq<int>)
    ensures IsPermutation(p, n)
  {
    p := [];
    for i := 0 to n
      invariant IsPermutation(p, i)
    {
      var j := Intn(i + 1);
      if j == i {
        p := p + [i];
      } else {
        p := p[j := i] + [p[j]];
      }
    }
  }

  /** `relevantRoles`: the roles whose type is one of two. */
  method Relevant(roles: seq<UserRole>, a: string, b: string) returns (relevant: seq<UserRole>)
    ensures forall r :: r in relevant <==> r in roles && (r.roleType == a || r.roleType == b)
  {
    relevant := [];
    for i := 0 to |roles|
      invariant forall r :: r in relevant <==> r in roles[..i] && (r.roleType == a || r.roleType == b)
    {
      if roles[i].roleType == a || roles[i].roleType == b {
        relevant := relevant + [roles[i]];
      }
    }
  }

  const ROLE_TYPE_INTERVIEWER: string := "interviewer"

  /** A role may be given to a job permission: of a known type while the table has any. */
  predicate JobRoleAllowed(roles: seq<UserRole>, roleID: int) {
    if exists r | r in roles :: r.roleType == ROLE_TYPE_JOB_ADMIN || r.roleType == ROLE_TYPE_INTERVIEWER then
      exists r | r in roles :: r.id == roleID && (r.roleType == ROLE_TYPE_JOB_ADMIN || r.roleType == ROLE_TYPE_INTERVIEWER)
    else if |roles| > 0 then exists r | r in roles :: r.id == roleID
    else roleID == 999
  }

  /** A role may be given to a future-job permission: a job_admin role while the table has any, then an
      interviewer role, then any. */
  predicate FutureRoleAllowed(roles: seq<UserRole>, roleID: int) {
    if exists r | r in roles :: r.roleType == ROLE_TYPE_JOB_ADMIN then
      exists r | r in roles :: r.id == roleID && r.roleType == ROLE_TYPE_JOB_ADMIN
    else if exists r | r in roles :: r.roleType == ROLE_TYPE_INTERVIEWER then
      exists r | r in roles :: r.id == roleID && r.roleType == ROLE_TYPE_INTERVIEWER
    else if |roles| > 0 then exists r | r in roles :: r.id == roleID
    else roleID == 998
  }

  /** How far a role is from what a future-job permission should name. */
  function Rank(r: UserRole): nat {
    if r.roleType == "job_admin" then 0 else if r.roleType == "interviewer" then 1 else 2
  }

  /** The allowed roles are the nearest ones of the table, or a fixed number when it is empty; a job permission
      does not tell the two known types apart. */
  lemma AllowedExactly(roles: seq<UserRole>, roleID: int)
    ensures FutureRoleAllowed(roles, roleID) <==>
            if |roles| == 0 then roleID == 998
            else exists r | r in roles :: r.id == roleID && forall q | q in roles :: Rank(r) <= Rank(q)
    ensures JobRoleAllowed(roles, roleID) <==>
            if |roles| == 0 then roleID == 999
            else exists r | r in roles :: r.id == roleID && forall q | q in roles :: Rank(r) == 2 ==> Rank(q) == 2
  {
    if |roles| > 0 {
      assert roles[0] in roles;
    }
  }

  method ChooseJobRole(roles: seq<UserRole>) returns (roleID: int)
    ensures JobRoleAllowed(roles, roleID)
  {
    if |roles| > 0 {
      var relevant := Relevant(roles, ROLE_TYPE_JOB_ADMIN, ROLE_TYPE_INTERVIEWER);
      var from := if |relevant| > 0 then relevant else roles;
      var k := Intn(|from|);
      assert from[k] in from;
      assert |relevant| > 0 ==> relevant[0] in relevant;
      roleID := from[k].id;
    } else {
      roleID := 999;
    }
  }

  method ChooseFutureRole(roles: seq<UserRole>) returns (roleID: int)
    ensures FutureRoleAllowed(roles, roleID)
  {
    if |roles| > 0 {
      var relevant := Relevant(roles, ROLE_TYPE_JOB_ADMIN, ROLE_TYPE_JOB_ADMIN);
      assert |relevant| > 0 ==> relevant[0] in relevant;
      if |relevant| == 0 {
        relevant := Relevant(roles, ROLE_TYPE_INTERVIEWER, ROLE_TYPE_INTERVIEWER);
        assert |relevant| > 0 ==> relevant[0] in relevant;
      }
      var from := if |relevant| > 0 then relevant else roles;
      var k := Intn(|from|);
      assert from[k] in from;
      roleID := from[k].id;
    } else {
      roleID := 998;
    }
  }

  // ---- what is generated ----

  /** Consecutive numbers from `lo` to `hi - 1`. */
  function Numbers(lo: int, hi: int): seq<int>
    requires lo <= hi
  {
    seq(hi - lo, i requires 0 <= i < hi - lo => lo + i)
  }

  function JobIDsOf(perms: seq<JobPermission>): seq<int> {
    seq(|perms|, i requires 0 <= i < |perms| => perms[i].id)
  }

  function FutureIDsOf(perms: seq<FutureJobPermission>): seq<int> {
    seq(|perms|, i requires 0 <= i < |perms| => perms[i].id)
  }

  /** All permission IDs, user by user, job permissions before future ones. */
  function AllIDs(users: seq<int>, jobs: map<int, seq<JobPermission>>, futures: map<int, seq<FutureJobPermission>>): seq<int>
    requires forall u | u in users :: u in jobs && u in futures
  {
    if |users| == 0 then []
    else
      var u := users[|users| - 1];
      AllIDs(users[..|users| - 1], jobs, futures) + JobIDsOf(jobs[u]) + FutureIDsOf(futures[u])
  }

  /** A user's job permissions name distinct jobs of the table, with allowed roles. */
  ghost predicate JobsFit(perms: seq<JobPermission>, jobs: seq<int>, roles: seq<UserRole>) {
    && (forall i | 0 <= i < |perms| :: perms[i].jobID in jobs && JobRoleAllowed(roles, perms[i].userRoleID))
    && (forall i, j | 0 <= i < j < |perms| :: perms[i].jobID != perms[j].jobID)
  }

  ghost predicate FuturesFit(perms: seq<FutureJobPermission>, roles: seq<UserRole>) {
    forall i | 0 <= i < |perms| :: FutureRoleAllowed(roles, perms[i].userRoleID)
  }

  class Generator {
    var mockUserJobPermissionsMap: map<int, seq<JobPermission>>
    var mockUserFutureJobPermissionsMap: map<int, seq<FutureJobPermission>>
    var nextPermissionID: int

    constructor ()
      ensures nextPermissionID == 1
    {
      mockUserJobPermissionsMap, mockUserFutureJobPermissionsMap, nextPermissionID := map[], map[], 1;
    }

    /** The first inner loop: job permissions for the first jobs of a random order. */
    method GenerateJobPermissions(jobs: seq<int>, roles: seq<UserRole>) returns (jobPerms: seq<JobPermission>)
      requires Distinct(jobs)
      modifies this`nextPermissionID
      ensures nextPermissionID == old(nextPermissionID) + |jobPerms|
      ensures JobIDsOf(jobPerms) == Numbers(old(nextPermissionID), nextPermissionID)
      ensures JobsFit(jobPerms, jobs, roles)
      ensures |jobPerms| <= |jobs| && |jobPerms| <= |jobs| / 3 + 3 && (|jobPerms| >= 3 || |jobPerms| == |jobs|)
    {
      jobPerms := [];
      var numJobPerms := Intn(|jobs| / 3 + 1);
      numJobPerms := numJobPerms + 3;
      var jobIndices := Perm(|jobs|);
      var i := 0;
      while i < numJobPerms && i < |jobs|
        invariant 0 <= i <= |jobs| && i <= numJobPerms && |jobPerms| == i
        invariant nextPermissionID == old(nextPermissionID) + i
        invariant forall k | 0 <= k < i :: jobPerms[k].id == old(nextPermissionID) + k
        invariant forall k | 0 <= k < i :: jobPerms[k].jobID == jobs[jobIndices[k]]
        invariant forall k | 0 <= k < i :: JobRoleAllowed(roles, jobPerms[k].userRoleID)
      {
        var roleID := ChooseJobRole(roles);
        jobPerms := jobPerms + [JobPermission(nextPermissionID, jobs[jobIndices[i]], roleID)];
        nextPermissionID := nextPermissionID + 1;
        i := i + 1;
      }
      assert forall k, l | 0 <= k < l < i :: jobIndices[k] != jobIndices[l];
    }

    /** The second inner loop: one to eight future-job permissions. */
    method GenerateFutureJobPermissions(roles: seq<UserRole>) returns (futureJobPerms: seq<FutureJobPermission>)
      modifies this`nextPermissionID
      ensures nextPermissionID == old(nextPermissionID) + |futureJobPerms|
      ensures FutureIDsOf(futureJobPerms) == Numbers(old(nextPermissionID), nextPermissionID)
      ensures FuturesFit(futureJobPerms, roles)
      ensures 1 <= |futureJobPerms| <= 8
    {
      futureJobPerms := [];
      var numFutureJobPerms := Intn(8);
      numFutureJobPerms := numFutureJobPerms + 1;
      for i := 0 to numFutureJobPerms
        invariant |futureJobPerms| == i && nextPermissionID == old(nextPermissionID) + i
        invariant forall k | 0 <= k < i :: futureJobPerms[k].id == old(nextPermissionID) + k
        invariant FuturesFit(futureJobPerms, roles)
      {
        var roleID := ChooseFutureRole(roles);
        futureJobPerms := futureJobPerms + [FutureJobPermission(nextPermissionID, roleID)];
        nextPermissionID := nextPermissionID + 1;
      }
    }

    /** One user: the body of the outer loop. */
    method GenerateForUser(ghost done: seq<int>, user: int, jobs: seq<int>, roles: seq<UserRole>)
      requires Distinct(jobs) && user !in done
      requires Filled(done, jobs, roles, mockUserJobPermissionsMap, mockUserFutureJobPermissionsMap, nextPermissionID)
      modifies this
      ensures Filled(done + [user], jobs, roles, mockUserJobPermissionsMap, mockUserFutureJobPermissionsMap, nextPermissionID)
    {
      var jobPerms := GenerateJobPermissions(jobs, roles);
      ghost var jobMap, futureMap := mockUserJobPermissionsMap, mockUserFutureJobPermissionsMap;
      ghost var middle := nextPermissionID;
      mockUserJobPermissionsMap := mockUserJobPermissionsMap[user := jobPerms];
      var futureJobPerms := GenerateFutureJobPermissions(roles);
      mockUserFutureJobPermissionsMap := mockUserFutureJobPermissionsMap[user := futureJobPerms];
      FilledStep(done, jobs, roles, jobMap, futureMap, old(nextPermissionID), user, jobPerms, futureJobPerms,
                 middle, nextPermissionID);
    }

    /** The outer loop over the users.  Main result: the IDs of all permissions of all users are the numbers
        from 1 up to the counter, each once, in the order of generation; and each user's permissions fit. */
    method GeneratePermissions(users: seq<int>, jobs: seq<int>, roles: seq<UserRole>)
      requires Distinct(users) && Distinct(jobs) && nextPermissionID == 1
      modifies this
      ensures Filled(users, jobs, roles, mockUserJobPermissionsMap, mockUserFutureJobPermissionsMap, nextPermissionID)
    {
      mockUserJobPermissionsMap := map[];
      mockUserFutureJobPermissionsMap := map[];
      ghost var done: seq<int> := [];
      FilledNone(jobs, roles);
      for i := 0 to |users|
        invariant done == users[..i]
        invariant Filled(done, jobs, roles, mockUserJobPermissionsMap, mockUserFutureJobPermissionsMap, nextPermissionID)
      {
        NextIsNew(users, i);
        GenerateForUser(done, users[i], jobs, roles);
        done := done + [users[i]];
      }
      assert users[..|users|] == users;
    }

    /** `initMockData`: the tables that matter here, then the permissions. */
    method InitMockData() returns (users: seq<User>, jobs: seq<int>)
      requires nextPermissionID == 1
      modifies this
      ensures IsUserTable(users)
      ensures jobs == Numbers(1, 76)
      ensures Filled(Numbers(1, 51), jobs, USER_ROLES, mockUserJobPermissionsMap, mockUserFutureJobPermissionsMap, nextPermissionID)
    {
      jobs := [];
      for i := 1 to 76
        invariant jobs == Numbers(1, i)
      {
        jobs := jobs + [i];
      }
      users := [];
      var userIDs: seq<int> := [];
      for i := 1 to 51
        invariant userIDs == Numbers(1, i)
        invariant |users| == i - 1 && forall k | 0 <= k < i - 1 :: users[k] == User(k + 1, (k + 1) % 15 == 0)
      {
        users := users + [User(i, i % 15 == 0)];
        userIDs := userIDs + [i];
      }
      GeneratePermissions(userIDs, jobs, USER_ROLES);
    }
  }

  /** The 50 users, every fifteenth a Site Admin. */
  predicate IsUserTable(users: seq<User>) {
    |users| == 50 && forall i | 0 <= i < 50 :: users[i] == User(i + 1, (i + 1) % 15 == 0)
  }

  const USER_ROLES: seq<UserRole> := [
    UserRole(1, "job_admin"), UserRole(2, "interviewer"), UserRole(3, "interviewer"),
    UserRole(4, "job_admin"), UserRole(5, "job_admin"), UserRole(6, "job_admin"),
    UserRole(7, "interviewer"), UserRole(8, "interviewer"), UserRole(9, "interviewer")
  ]

  lemma FilledNone(jobs: seq<int>, roles: seq<UserRole>)
    ensures Filled([], jobs, roles, map[], map[], 1)
  {
  }

  lemma NextIsNew<T(!new)>(s: seq<T>, i: nat)
    requires Distinct(s) && i < |s|
    ensures s[i] !in s[..i]
  {
  }

  /** The tables after the permissions of these users: their IDs fill 1 to `next - 1`, and they fit. */
  ghost predicate Filled(users: seq<int>, jobs: seq<int>, roles: seq<UserRole>,
                         jobMap: map<int, seq<JobPermission>>, futureMap: map<int, seq<FutureJobPermission>>, next: int)
  {
    && next >= 1
    && (forall u :: u in jobMap <==> u in users)
    && (forall u :: u in futureMap <==> u in users)
    && AllIDs(users, jobMap, futureMap) == Numbers(1, next)
    && (forall u | u in users :: UserFits(jobMap[u], futureMap[u], jobs, roles))
  }

  ghost predicate UserFits(jobPerms: seq<JobPermission>, futureJobPerms: seq<FutureJobPermission>,
                           jobs: seq<int>, roles: seq<UserRole>)
  {
    && JobsFit(jobPerms, jobs, roles) && |jobPerms| <= |jobs| / 3 + 3
    && FuturesFit(futureJobPerms, roles) && 1 <= |futureJobPerms| <= 8
  }

  lemma FilledStep(users: seq<int>, jobs: seq<int>, roles: seq<UserRole>, jobMap: map<int, seq<JobPermission>>,
                   futureMap: map<int, seq<FutureJobPermission>>, next: int,
                   user: int, jobPerms: seq<JobPermission>, futureJobPerms: seq<FutureJobPermission>, middle: int, end: int)
    requires Filled(users, jobs, roles, jobMap, futureMap, next) && user !in users
    requires UserFits(jobPerms, futureJobPerms, jobs, roles)
    requires next <= middle <= end && JobIDsOf(jobPerms) == Numbers(next, middle) && FutureIDsOf(futureJobPerms) == Numbers(middle, end)
    ensures Filled(users + [user], jobs, roles, jobMap[user := jobPerms], futureMap[user := futureJobPerms], end)
  {
    var all, jobMap', futureMap' := users + [user], jobMap[user := jobPerms], futureMap[user := futureJobPerms];
    assert all[..|all| - 1] == users;
    AllIDsKept(users, user, jobMap, futureMap, jobPerms, futureJobPerms);
    assert AllIDs(all, jobMap', futureMap') == Numbers(1, next) + Numbers(next, middle) + Numbers(middle, end);
  }

  /** No permission ID of a filled table repeats, and each number below the counter is one. */
  lemma FilledIDs(users: seq<int>, jobs: seq<int>, roles: seq<UserRole>, jobMap: map<int, seq<JobPermission>>,
                  futureMap: map<int, seq<FutureJobPermission>>, next: int, n: int)
    requires Filled(users, jobs, roles, jobMap, futureMap, next)
    ensures Distinct(AllIDs(users, jobMap, futureMap))
    ensures n in AllIDs(users, jobMap, futureMap) <==> 1 <= n < next
  {
    if 1 <= n < next {
      assert Numbers(1, next)[n - 1] == n;
    }
  }

  /** With the server's own role table every future-job permission names one of its job_admin roles. */
  lemma FutureRolesAreAdmin(roleID: int)
    requires FutureRoleAllowed(USER_ROLES, roleID)
    ensures roleID in AdminIDs(USER_ROLES) && AdminIDs(USER_ROLES) == {1, 4, 5, 6}
  {
    assert USER_ROLES[0].roleType == ROLE_TYPE_JOB_ADMIN;
    assert USER_ROLES[0] in USER_ROLES;
    AdminTable();
  }

  lemma AdminTable()
    ensures AdminIDs(USER_ROLES) == {1, 4, 5, 6}
  {
  }

  /** An entry for another user leaves the IDs of these users as they are. */
  lemma {:induction false} AllIDsKept(users: seq<int>, user: int, jobs: map<int, seq<JobPermission>>,
                                      futures: map<int, seq<FutureJobPermission>>,
                                      jobPerms: seq<JobPermission>, futureJobPerms: seq<FutureJobPermission>)
    requires user !in users && forall u | u in users :: u in jobs && u in futures
    ensures AllIDs(users, jobs[user := jobPerms], futures[user := futureJobPerms]) == AllIDs(users, jobs, futures)
    decreases |users|
  {
    if |users| > 0 {
      AllIDsKept(users[..|users| - 1], user, jobs, futures, jobPerms, futureJobPerms);
    }
  }
}
