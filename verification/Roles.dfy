/** Role resources and role IDs (pkg/connector/roles.go). */
module Roles {
  import opened Text
  import opened Client
  import opened LinkHeader

  datatype UserRole = UserRole(id: int, roleType: string)

  const ROLE_TYPE_JOB_ADMIN: string := "job_admin"
  const SITE_ADMIN: string := "site_admin"

  function JobRoleResource(roleID: int): string { Itoa(roleID) }

  function FutureRoleResource(roleID: int): string { "future-job:" + Itoa(roleID) }

  // ---- deduplication ----

  /** The dynamic types that `extractUniqueUserRolesIDs` tells apart. */
  datatype PermissionList = Jobs(jobs: seq<JobPermission>) | Futures(futures: seq<FutureJobPermission>) | Other

  ghost predicate Distinct<T(!new)>(s: seq<T>) {
    forall i, j | 0 <= i < j < |s| :: s[i] != s[j]
  }

  function JobRoleIDs(items: seq<JobPermission>): set<int> { set p | p in items :: p.userRoleID }

  function FutureRoleIDs(items: seq<FutureJobPermission>): set<int> { set p | p in items :: p.userRoleID }

  /** The loop over the map may visit its keys in any order. */
  method ExtractUniqueUserRolesIDs(list: PermissionList) returns (r: Option<seq<int>>)
    ensures r.None? <==> list.Other?
    ensures r.Some? ==> Distinct(r.value)
    ensures r.Some? ==> (set id | id in r.value) ==
                        if list.Jobs? then JobRoleIDs(list.jobs) else FutureRoleIDs(list.futures)
  {
    var userRoleIDs: set<int> := {};
    match list {
      case Jobs(jobs) =>
        for i := 0 to |jobs|
          invariant userRoleIDs == JobRoleIDs(jobs[..i])
        {
          assert jobs[..i + 1] == jobs[..i] + [jobs[i]];
          userRoleIDs := userRoleIDs + {jobs[i].userRoleID};
        }
        assert jobs[..|jobs|] == jobs;
      case Futures(futures) =>
        for i := 0 to |futures|
          invariant userRoleIDs == FutureRoleIDs(futures[..i])
        {
          assert futures[..i + 1] == futures[..i] + [futures[i]];
          userRoleIDs := userRoleIDs + {futures[i].userRoleID};
        }
        assert futures[..|futures|] == futures;
      case Other => return None;
    }
    var ids: seq<int> := [];
    var left := userRoleIDs;
    while left != {}
      invariant left <= userRoleIDs && Distinct(ids)
      invariant forall id | id in ids :: id !in left
      invariant (set id | id in ids) + left == userRoleIDs
      decreases left
    {
      var id :| id in left;
      ids := ids + [id];
      left := left - {id};
    }
    r := Some(ids);
  }

  // ---- resource IDs ----

  /** The three families of resource IDs never meet, and none repeats. */
  lemma ResourceIDs(m: int, n: int)
    ensures JobRoleResource(m) == JobRoleResource(n) <==> m == n
    ensures FutureRoleResource(m) == FutureRoleResource(n) <==> m == n
    ensures JobRoleResource(m) != FutureRoleResource(n)
    ensures JobRoleResource(m) != SITE_ADMIN && FutureRoleResource(m) != SITE_ADMIN
  {
    ItoaChars(m);
    assert Itoa(m)[0] in Itoa(m);
    assert FutureRoleResource(n)[0] == FutureRoleResource(m)[0] == 'f' && SITE_ADMIN[0] == 's';
    if JobRoleResource(m) == JobRoleResource(n) {
      ItoaInjective(m, n);
    }
    if FutureRoleResource(m) == FutureRoleResource(n) {
      assert FutureRoleResource(m)[11..] == Itoa(m) && FutureRoleResource(n)[11..] == Itoa(n);
      ItoaInjective(m, n);
    }
  }

  /** The resource of a role ID: its decimal text. */
  predicate NamesJobRole(resource: string, roleID: int) { Signed(resource) == Some(roleID) }

  /** The future-job resource of a role ID: a prefix, then its decimal text. */
  predicate NamesFutureRole(resource: string, roleID: int) {
    "future-job:" <= resource && Signed(resource[11..]) == Some(roleID)
  }

  /** The texts themselves; a 64-bit ID is read back from them. */
  lemma ResourceTexts(id: int)
    ensures NamesJobRole(JobRoleResource(id), id) && Writes(JobRoleResource(id), id)
    ensures NamesFutureRole(FutureRoleResource(id), id) && Writes(FutureRoleResource(id)[11..], id)
    ensures MIN_INT64 <= id <= MAX_INT64 ==>
              Atoi(JobRoleResource(id)) == Some(id) && Atoi(FutureRoleResource(id)[11..]) == Some(id)
    ensures SITE_ADMIN == "site_admin"
  {
    ItoaWrites(id);
    SignedItoa(id);
    AtoiItoa(id);
    assert FutureRoleResource(id)[11..] == Itoa(id);
  }

  // ---- which role resources exist ----

  /** Two resources for each job_admin role of a page, in order, then the Site Admin resource. */
  function AdminResources(roles: seq<UserRole>): seq<string> {
    if |roles| == 0 then []
    else
      var r := roles[|roles| - 1];
      AdminResources(roles[..|roles| - 1]) +
      if r.roleType == ROLE_TYPE_JOB_ADMIN then [JobRoleResource(r.id), FutureRoleResource(r.id)] else []
  }

  /** What one list call returns. */
  function ListResources(api: string -> Response<UserRole>, first: string, token: string, fault: bool): (Received<string>, string) {
    match ListPage(api, first, token, fault)
    case (Items(roles), link) => (Items(AdminResources(roles) + [SITE_ADMIN]), link)
    case (Error, _) => (Error, "")
    case (Panic, _) => (Panic, "")
  }

  /** `roleBuilder.List` */
  method List(client: GreenhouseClient, first: string, token: string, api: string -> Response<UserRole>, fault: bool)
    returns (r: Received<string>, next: string)
    modifies client`requested
    ensures (r, next) == ListResources(api, first, token, fault)
    ensures r.Items? ==> |r.items| > 0 && r.items[|r.items| - 1] == "site_admin"
    ensures client.requested == old(client.requested) + [ListRequest(if token != "" then token else first)]
  {
    var page;
    page, next := client.List(first, token, api, fault);
    match page {
      case Error => return Error, "";
      case Panic => return Panic, "";
      case Items(userRoles) =>
        var roleResources: seq<string> := [];
        for i := 0 to |userRoles|
          invariant roleResources == AdminResources(userRoles[..i])
        {
          assert userRoles[..i + 1][..i] == userRoles[..i];
          if userRoles[i].roleType != ROLE_TYPE_JOB_ADMIN {
            continue;
          }
          roleResources := roleResources + [JobRoleResource(userRoles[i].id)];
          roleResources := roleResources + [FutureRoleResource(userRoles[i].id)];
        }
        assert userRoles[..|userRoles|] == userRoles;
        r := Items(roleResources + [SITE_ADMIN]);
    }
  }

  /** The resources that a crawl over these pages emits. */
  function Listed(pages: seq<seq<UserRole>>): seq<string> {
    if |pages| == 0 then []
    else Listed(pages[..|pages| - 1]) + AdminResources(pages[|pages| - 1]) + [SITE_ADMIN]
  }

  function Flatten<T>(pages: seq<seq<T>>): seq<T> {
    if |pages| == 0 then [] else Flatten(pages[..|pages| - 1]) + pages[|pages| - 1]
  }

  function AdminIDs(roles: seq<UserRole>): set<int> {
    set r | r in roles && r.roleType == ROLE_TYPE_JOB_ADMIN :: r.id
  }

  function AdminCount(roles: seq<UserRole>): nat {
    if |roles| == 0 then 0
    else AdminCount(roles[..|roles| - 1]) + if roles[|roles| - 1].roleType == ROLE_TYPE_JOB_ADMIN then 1 else 0
  }

  lemma {:induction false} AdminResourcesConcat(a: seq<UserRole>, b: seq<UserRole>)
    ensures AdminResources(a + b) == AdminResources(a) + AdminResources(b)
    ensures AdminCount(a + b) == AdminCount(a) + AdminCount(b)
    decreases |b|
  {
    if |b| == 0 {
      assert a + b == a;
    } else {
      assert (a + b)[..|a + b| - 1] == a + b[..|b| - 1];
      AdminResourcesConcat(a, b[..|b| - 1]);
    }
  }

  /** Each job_admin role of a page has its two resources at its place among the job_admin roles. */
  lemma {:induction false} AdminResourcesAt(roles: seq<UserRole>, i: nat)
    requires i < |roles| && roles[i].roleType == "job_admin"
    ensures var j := 2 * AdminCount(roles[..i]);
            && j + 1 < |AdminResources(roles)|
            && NamesJobRole(AdminResources(roles)[j], roles[i].id)
            && NamesFutureRole(AdminResources(roles)[j + 1], roles[i].id)
    decreases |roles|
  {
    var n := |roles| - 1;
    AdminResourcesSize(roles[..n]);
    if i == n {
      ResourceTexts(roles[n].id);
    } else {
      AdminResourcesAt(roles[..n], i);
      assert roles[..n][..i] == roles[..i];
      AdminResourcesLonger(roles);
    }
  }

  lemma AdminResourcesLonger(roles: seq<UserRole>)
    requires |roles| > 0
    ensures AdminResources(roles[..|roles| - 1]) <= AdminResources(roles)
  {
  }

  lemma {:induction false} AdminResourcesSize(roles: seq<UserRole>)
    ensures |AdminResources(roles)| == 2 * AdminCount(roles)
    decreases |roles|
  {
    if |roles| > 0 {
      AdminResourcesSize(roles[..|roles| - 1]);
    }
  }

  /** One of the two resources of a role with one of these IDs. */
  predicate IsRoleResource(ids: set<int>, x: string) {
    exists id | id in ids :: x == JobRoleResource(id) || x == FutureRoleResource(id)
  }

  lemma RoleResourceUnion(a: set<int>, b: set<int>, x: string)
    ensures IsRoleResource(a + b, x) <==> IsRoleResource(a, x) || IsRoleResource(b, x)
  {
  }

  lemma AdminIDsConcat(a: seq<UserRole>, b: seq<UserRole>)
    ensures AdminIDs(a + b) == AdminIDs(a) + AdminIDs(b)
  {
  }

  lemma AdminResourcesOfOne(r: UserRole, x: string)
    ensures x in AdminResources([r]) <==> IsRoleResource(AdminIDs([r]), x)
    ensures |AdminResources([r])| == 2 * AdminCount([r])
  {
    assert [r][..0] == [];
    assert AdminIDs([r]) == if r.roleType == ROLE_TYPE_JOB_ADMIN then {r.id} else {};
  }

  lemma {:induction false} AdminResourcesMembers(roles: seq<UserRole>, x: string)
    ensures x in AdminResources(roles) <==> IsRoleResource(AdminIDs(roles), x)
    ensures |AdminResources(roles)| == 2 * AdminCount(roles)
    decreases |roles|
  {
    if |roles| > 0 {
      var front, last := roles[..|roles| - 1], [roles[|roles| - 1]];
      assert roles == front + last;
      AdminResourcesMembers(front, x);
      AdminResourcesOfOne(last[0], x);
      AdminResourcesConcat(front, last);
      AdminIDsConcat(front, last);
      RoleResourceUnion(AdminIDs(front), AdminIDs(last), x);
    }
  }

  lemma ListedLast(pages: seq<seq<UserRole>>, x: string)
    requires |pages| > 0
    ensures var n := |pages| - 1;
            && (x in Listed(pages) <==> x in Listed(pages[..n]) || x in AdminResources(pages[n]) || x == SITE_ADMIN)
            && |Listed(pages)| == |Listed(pages[..n])| + |AdminResources(pages[n])| + 1
  {
  }

  /** What a crawl lists: the Site Admin resource, and two resources for each job_admin role. */
  lemma {:induction false} ListedMembers(pages: seq<seq<UserRole>>, x: string)
    ensures x in Listed(pages) <==> (|pages| > 0 && x == SITE_ADMIN) || IsRoleResource(AdminIDs(Flatten(pages)), x)
    decreases |pages|
  {
    if |pages| > 0 {
      var n := |pages| - 1;
      ListedMembers(pages[..n], x);
      ListedLast(pages, x);
      AdminResourcesMembers(pages[n], x);
      FlattenedIDs(pages, x);
    }
  }

  lemma FlattenedIDs(pages: seq<seq<UserRole>>, x: string)
    requires |pages| > 0
    ensures var n := |pages| - 1;
            IsRoleResource(AdminIDs(Flatten(pages)), x) <==>
            IsRoleResource(AdminIDs(Flatten(pages[..n])), x) || IsRoleResource(AdminIDs(pages[n]), x)
  {
    var before, last := Flatten(pages[..|pages| - 1]), pages[|pages| - 1];
    AdminIDsConcat(before, last);
    RoleResourceUnion(AdminIDs(before), AdminIDs(last), x);
  }

  lemma {:induction false} ListedSize(pages: seq<seq<UserRole>>)
    ensures |Listed(pages)| == 2 * AdminCount(Flatten(pages)) + |pages|
    decreases |pages|
  {
    if |pages| > 0 {
      var n := |pages| - 1;
      ListedSize(pages[..n]);
      ListedLast(pages, "");
      AdminResourcesMembers(pages[n], "");
      AdminResourcesConcat(Flatten(pages[..n]), pages[n]);
    }
  }

  /** Main result, references: a job or future-job resource is listed exactly when its role ID is that
      of a listed job_admin role; the Site Admin resource is listed by every crawl. */
  lemma ListedExactly(pages: seq<seq<UserRole>>, roleID: int)
    ensures JobRoleResource(roleID) in Listed(pages) <==> roleID in AdminIDs(Flatten(pages))
    ensures FutureRoleResource(roleID) in Listed(pages) <==> roleID in AdminIDs(Flatten(pages))
    ensures SITE_ADMIN in Listed(pages) <==> |pages| > 0
  {
    ListedMembers(pages, JobRoleResource(roleID));
    ListedMembers(pages, FutureRoleResource(roleID));
    ListedMembers(pages, SITE_ADMIN);
    forall id ensures JobRoleResource(id) == JobRoleResource(roleID) <==> id == roleID
      ensures FutureRoleResource(id) == FutureRoleResource(roleID) <==> id == roleID
      ensures JobRoleResource(id) != FutureRoleResource(roleID) && FutureRoleResource(id) != JobRoleResource(roleID)
      ensures SITE_ADMIN != JobRoleResource(id) && SITE_ADMIN != FutureRoleResource(id)
    {
      ResourceIDs(id, roleID);
      ResourceIDs(roleID, id);
    }
    var ids := AdminIDs(Flatten(pages));
    if roleID in ids {
      assert IsRoleResource(ids, JobRoleResource(roleID)) && IsRoleResource(ids, FutureRoleResource(roleID));
    }
  }

  predicate DistinctIDs(roles: seq<UserRole>) {
    forall i, j | 0 <= i < j < |roles| :: roles[i].id != roles[j].id
  }

  function ToSet<T>(s: seq<T>): set<T> { set x | x in s }

  lemma {:induction false} AdminResourcesCount(roles: seq<UserRole>)
    requires DistinctIDs(roles)
    ensures |ToSet(AdminResources(roles))| == 2 * AdminCount(roles)
    decreases |roles|
  {
    if |roles| > 0 {
      var n := |roles| - 1;
      var before, id := roles[..n], roles[n].id;
      AdminResourcesCount(before);
      if roles[n].roleType == ROLE_TYPE_JOB_ADMIN {
        NewResources(before, id);
        assert AdminResources(roles) == AdminResources(before) + [JobRoleResource(id), FutureRoleResource(id)];
        var s, job, future := ToSet(AdminResources(before)), JobRoleResource(id), FutureRoleResource(id);
        assert ToSet(AdminResources(roles)) == s + {job} + {future};
        assert |s + {job}| == |s| + 1;
      } else {
        assert AdminResources(roles) == AdminResources(before);
      }
    } else {
      assert ToSet(AdminResources(roles)) == {};
    }
  }

  lemma NewResources(roles: seq<UserRole>, id: int)
    requires forall i | 0 <= i < |roles| :: roles[i].id != id
    ensures JobRoleResource(id) !in AdminResources(roles) && FutureRoleResource(id) !in AdminResources(roles)
    ensures JobRoleResource(id) != FutureRoleResource(id)
  {
    AdminResourcesMembers(roles, JobRoleResource(id));
    AdminResourcesMembers(roles, FutureRoleResource(id));
    ResourceIDs(id, id);
    forall other | other in AdminIDs(roles)
      ensures JobRoleResource(other) !in {JobRoleResource(id), FutureRoleResource(id)}
      ensures FutureRoleResource(other) !in {JobRoleResource(id), FutureRoleResource(id)}
    {
      ResourceIDs(other, id);
      ResourceIDs(id, other);
    }
  }

  /** Main result, counts: over roles with distinct IDs a crawl of P pages with A job_admin roles emits
      2A + P resources, of which 2A + 1 are distinct: only the Site Admin resource repeats. */
  lemma {:induction false} ListedCount(pages: seq<seq<UserRole>>)
    requires |pages| > 0 && DistinctIDs(Flatten(pages))
    ensures |Listed(pages)| == 2 * AdminCount(Flatten(pages)) + |pages|
    ensures |ToSet(Listed(pages))| == 2 * AdminCount(Flatten(pages)) + 1
  {
    var roles := Flatten(pages);
    AdminResourcesCount(roles);
    ListedSize(pages);
    SiteAdminApart(roles);
    forall x ensures x in Listed(pages) <==> x in ToSet(AdminResources(roles)) + {SITE_ADMIN} {
      ListedMembers(pages, x);
      AdminResourcesMembers(roles, x);
    }
    assert ToSet(Listed(pages)) == ToSet(AdminResources(roles)) + {SITE_ADMIN};
  }

  lemma SiteAdminApart(roles: seq<UserRole>)
    ensures SITE_ADMIN !in AdminResources(roles)
  {
    AdminResourcesMembers(roles, SITE_ADMIN);
    forall id ensures SITE_ADMIN != JobRoleResource(id) && SITE_ADMIN != FutureRoleResource(id) {
      ResourceIDs(id, id);
    }
  }

  // ---- whole listings ----

  /** The engine's loop over the list calls, one fault a call: on success go on with the returned link until
      it is empty, on an error call again with the same one.  All resources it is given, and how it ends. */
  function ListRun(api: string -> Response<UserRole>, first: string, token: string, faults: seq<bool>): (seq<string>, Ending)
    decreases |faults|
  {
    if |faults| == 0 then ([], Unfinished)
    else match ListResources(api, first, token, faults[0])
      case (Items(resources), next) =>
        if next == "" then (resources, Finished)
        else var (rest, ending) := ListRun(api, first, next, faults[1..]); (resources + rest, ending)
      case (Error, _) => ListRun(api, first, token, faults[1..])
      case (Panic, _) => ([], Stopped)
  }

  /** The number of calls without a fault. */
  function Faultless(faults: seq<bool>): nat {
    if |faults| == 0 then 0 else (if faults[0] then 0 else 1) + Faultless(faults[1..])
  }

  lemma {:induction false} ListedFirst(pages: seq<seq<UserRole>>)
    requires |pages| > 0
    ensures Listed(pages) == AdminResources(pages[0]) + [SITE_ADMIN] + Listed(pages[1..])
    decreases |pages|
  {
    var n := |pages| - 1;
    if n > 0 {
      ListedFirst(pages[..n]);
      assert pages[..n][1..] == pages[1..][..n - 1];
    }
  }

  lemma ListRunFails(api: string -> Response<UserRole>, first: string, token: string, faults: seq<bool>)
    requires |faults| > 0 && ListResources(api, first, token, faults[0]).0.Error?
    ensures ListRun(api, first, token, faults) == ListRun(api, first, token, faults[1..])
  {
  }

  lemma ListRunGoesOn(api: string -> Response<UserRole>, first: string, token: string, faults: seq<bool>,
                      resources: seq<string>, next: string)
    requires |faults| > 0 && ListResources(api, first, token, faults[0]) == (Items(resources), next)
    ensures ListRun(api, first, token, faults) ==
            if next == "" then (resources, Finished)
            else var rest := ListRun(api, first, next, faults[1..]); (resources + rest.0, rest.1)
  {
  }

  lemma ListResourcesAt(api: string -> Response<UserRole>, first: string, st: Stream<UserRole>, k: nat, fault: bool)
    requires Serves(api, first, st) && k < |st.pages|
    ensures ListResources(api, first, TokenAt(st, k), fault) ==
            if fault || k >= st.Readable() then (Error, "")
            else (Items(AdminResources(st.pages[k]) + [SITE_ADMIN]), if k + 1 < |st.pages| then TokenAt(st, k + 1) else "")
  {
    if !fault {
      ListPageAt(api, first, st, k);
    }
  }

  /** The pages from `k` that `calls` successful calls can get. */
  function Reached<T>(st: Stream<T>, k: nat, calls: nat): seq<seq<T>>
    requires k <= st.Readable()
  {
    if k + calls < st.Readable() then st.pages[k..k + calls] else st.pages[k..st.Readable()]
  }

  /** What `calls` successful calls from page `k` on bring. */
  function ListingOf(st: Stream<UserRole>, k: nat, calls: nat): (seq<string>, Ending)
    requires k <= st.Readable()
  {
    (Listed(Reached(st, k, calls)), if !st.broken && k + calls >= |st.pages| then Finished else Unfinished)
  }

  lemma ListingStep(st: Stream<UserRole>, k: nat, calls: nat)
    requires k < st.Readable() && calls > 0
    ensures var resources := AdminResources(st.pages[k]) + [SITE_ADMIN];
            ListingOf(st, k, calls) ==
            if k + 1 == |st.pages| then (resources, Finished)
            else (resources + ListingOf(st, k + 1, calls - 1).0, ListingOf(st, k + 1, calls - 1).1)
  {
    var reached, resources := Reached(st, k, calls), AdminResources(st.pages[k]) + [SITE_ADMIN];
    assert reached[1..] == Reached(st, k + 1, calls - 1);
    ListedFirst(reached);
    assert resources + Listed([]) == resources;
    assert k + 1 == |st.pages| ==> reached[1..] == [];
  }

  /** The listing from page `k` on brings what the stream has. */
  ghost predicate Lists(api: string -> Response<UserRole>, first: string, st: Stream<UserRole>, k: nat, faults: seq<bool>)
    requires k <= st.Readable()
  {
    ListRun(api, first, TokenAt(st, k), faults) == ListingOf(st, k, Faultless(faults))
  }

  lemma ListsAfterFailure(api: string -> Response<UserRole>, first: string, st: Stream<UserRole>, k: nat, faults: seq<bool>)
    requires k <= st.Readable() && |faults| > 0 && (faults[0] || (st.broken && k == st.Readable()))
    requires ListResources(api, first, TokenAt(st, k), faults[0]) == (Error, "")
    requires Lists(api, first, st, k, faults[1..])
    ensures Lists(api, first, st, k, faults)
  {
    ListRunFails(api, first, TokenAt(st, k), faults);
  }

  lemma ListsAfterPage(api: string -> Response<UserRole>, first: string, st: Stream<UserRole>, k: nat, faults: seq<bool>, next: string)
    requires k < st.Readable() && |faults| > 0 && !faults[0]
    requires ListResources(api, first, TokenAt(st, k), false) == (Items(AdminResources(st.pages[k]) + [SITE_ADMIN]), next)
    requires if k + 1 < |st.pages| then next != "" && next == TokenAt(st, k + 1) && Lists(api, first, st, k + 1, faults[1..])
             else next == ""
    ensures Lists(api, first, st, k, faults)
  {
    ListRunGoesOn(api, first, TokenAt(st, k), faults, AdminResources(st.pages[k]) + [SITE_ADMIN], next);
    ListingStep(st, k, Faultless(faults));
  }

  lemma ListsNothing(api: string -> Response<UserRole>, first: string, st: Stream<UserRole>, k: nat)
    requires k <= st.Readable() && k < |st.pages|
    ensures Lists(api, first, st, k, [])
  {
  }

  /** A call of a listing: failed, or page `k` and on with the rest. */
  lemma ListsCall(api: string -> Response<UserRole>, first: string, st: Stream<UserRole>, k: nat, faults: seq<bool>)
    requires Serves(api, first, st) && k < |st.pages| && |faults| > 0
    requires if faults[0] || k >= st.Readable() then Lists(api, first, st, k, faults[1..])
             else k + 1 < |st.pages| ==> Lists(api, first, st, k + 1, faults[1..])
    ensures Lists(api, first, st, k, faults)
  {
    ListResourcesAt(api, first, st, k, faults[0]);
    if faults[0] || k >= st.Readable() {
      ListsAfterFailure(api, first, st, k, faults);
    } else {
      ListsAfterPage(api, first, st, k, faults, if k + 1 < |st.pages| then TokenAt(st, k + 1) else "");
    }
  }

  lemma {:induction false} ListRunFrom(api: string -> Response<UserRole>, first: string, st: Stream<UserRole>, k: nat, faults: seq<bool>)
    requires Serves(api, first, st) && k < |st.pages|
    ensures Lists(api, first, st, k, faults)
    decreases |faults|
  {
    if |faults| == 0 {
      ListsNothing(api, first, st, k);
    } else {
      if faults[0] || k >= st.Readable() {
        ListRunFrom(api, first, st, k, faults[1..]);
      } else if k + 1 < |st.pages| {
        ListRunFrom(api, first, st, k + 1, faults[1..]);
      }
      ListsCall(api, first, st, k, faults);
    }
  }

  /** A first page whose header the Link parser panics on ends a listing at its first call without a fault. */
  lemma {:induction false} ListRunPanics(api: string -> Response<UserRole>, first: string, faults: seq<bool>)
    requires HeaderReads(api, first, Panicked)
    ensures ListRun(api, first, "", faults) == ([], if Faultless(faults) >= 1 then Stopped else Unfinished)
    decreases |faults|
  {
    if |faults| > 0 {
      ListRunPanics(api, first, faults[1..]);
    }
  }

  /** A first page that is refused, or whose header is malformed, is asked for again and again. */
  lemma {:induction false} ListRunRefused(api: string -> Response<UserRole>, first: string, faults: seq<bool>)
    requires api(first).Refused? || HeaderReads(api, first, Malformed)
    ensures ListRun(api, first, "", faults) == ([], Unfinished)
    decreases |faults|
  {
    if |faults| > 0 {
      ListRunRefused(api, first, faults[1..]);
    }
  }

  /** Main result, listing: whatever fails on the way, the engine is given the resources of the pages in
      order, one page for each call without a fault, and finishes exactly when it had one for every
      page; a page that cannot be had keeps it from finishing. */
  lemma ListRunServed(api: string -> Response<UserRole>, first: string, st: Stream<UserRole>, faults: seq<bool>)
    requires Serves(api, first, st)
    ensures ListRun(api, first, "", faults) ==
            (Listed(Reached(st, 0, Faultless(faults))),
             if !st.broken && Faultless(faults) >= |st.pages| then Finished else Unfinished)
    ensures ListRun(api, first, "", faults).1 == Finished ==> ListRun(api, first, "", faults).0 == Listed(st.pages)
  {
    ListRunFrom(api, first, st, 0, faults);
    assert st.pages[0..|st.pages|] == st.pages;
  }

  /** What a finished listing was given: `ListedExactly` and `ListedCount`, for the roles of the stream. */
  lemma FinishedListing(api: string -> Response<UserRole>, first: string, st: Stream<UserRole>, faults: seq<bool>, roleID: int)
    requires Serves(api, first, st) && ListRun(api, first, "", faults).1 == Finished
    ensures var resources, roles := ListRun(api, first, "", faults).0, Flatten(st.pages);
            && (JobRoleResource(roleID) in resources <==> roleID in AdminIDs(roles))
            && (FutureRoleResource(roleID) in resources <==> roleID in AdminIDs(roles))
            && SITE_ADMIN in resources
            && |resources| == 2 * AdminCount(roles) + |st.pages|
            && (DistinctIDs(roles) ==> |ToSet(resources)| == 2 * AdminCount(roles) + 1)
  {
    ListRunServed(api, first, st, faults);
    ListedExactly(st.pages, roleID);
    ListedSize(st.pages);
    if DistinctIDs(Flatten(st.pages)) {
      ListedCount(st.pages);
    }
  }
}
