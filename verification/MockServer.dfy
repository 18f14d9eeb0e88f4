/** The connector against the mock server: the paginated handlers seen as the API of the client
    (cmd/test-server/gh-test-server.go with pkg/client and pkg/connector). */
module MockServer {
  import opened Text
  import opened LinkHeader
  import opened Client
  import opened Roles
  import opened Grants
  import opened Runs
  import ListServer
  import Router

  /** The page size that the server grants for the 500 that the client asks for. */
  const PAGE_SIZE: int := 100

  /** The answer of a list handler to a request for `target`, the path and query of a URL. */
  function Answer<T>(list: seq<T>, path: string, query: string): Response<T> {
    match ListServer.ParsePagination(query)
    case BadRequest => Refused
    case Params(page, perPage) =>
      ListServer.AcceptedPagination(query);
      match ListServer.Handled(list, page, perPage)
      case OutOfRange => Refused
      case Data(items) => Page(items, ListServer.HeaderOf(path, page, perPage, |list|))
  }

  /** The server at `base` as the client reaches it; it finds the list by the path.  The server's links have
      no host. This client sends them as they stand, and no server gets them; a client that `resolves`
      them against `base` asks the same server. */
  function Api<T>(base: string, resolves: bool, lists: string -> Option<seq<T>>): string -> Response<T> {
    (url: string) =>
      if !resolves && !(base <= url) then Refused
      else
        var target := TrimPrefix(url, base);
        var i := IndexOf(target, '?');
        var path, query := target[..i], if i < |target| then target[i + 1..] else "";
        match lists(path)
        case None => Refused
        case Some(list) => Answer(list, path, query)
  }

  /** The first URL of a list, as the client asks for it. */
  function FirstURL(base: string, path: string): string { base + path + "?page=1&per_page=500" }

  /** The pages whose URLs the client comes to know: all of them, or the first one and the link to the second. */
  function Visible(total: nat, resolves: bool): (n: nat)
    ensures n >= 1
    ensures n >= 2 <==> total > PAGE_SIZE
  {
    var n := ListServer.PageCount(total, PAGE_SIZE);
    if !resolves && n > 2 then 2 else n
  }

  /** The stream that the server's handler presents to the client: of several visible pages the last cannot
      be had.  Its header is refused, or, without resolving, its URL is. */
  function StreamOf<T>(base: string, resolves: bool, path: string, list: seq<T>): Stream<T> {
    var n := Visible(|list|, resolves);
    Stream([FirstURL(base, path)] + seq(n - 1, i requires 0 <= i < n - 1 => ListServer.LinkURL(path, i + 2, PAGE_SIZE)),
           seq(n, i requires 0 <= i < n => ListServer.PageOf(list, i + 1, PAGE_SIZE)),
           n >= 2)
  }

  /** A base URL as `New` leaves it, never empty, that no path begins with. */
  predicate Base(base: string) { base != "" && base[0] != '/' }

  predicate ListPath(path: string) { path != "" && path[0] == '/' && ListServer.CleanPath(path) }

  // ---- one request ----

  lemma ApiAt<T>(base: string, resolves: bool, lists: string -> Option<seq<T>>, url: string, path: string, query: string)
    requires (resolves || base <= url) && TrimPrefix(url, base) == path + "?" + query && '?' !in path
    ensures Api(base, resolves, lists)(url) ==
            match lists(path) case None => Refused case Some(list) => Answer(list, path, query)
  {
    ListServer.CutAt(path, query);
  }

  /** The URL of page `k + 1` of the stream asks the server for that page. */
  lemma PageURL<T>(base: string, resolves: bool, path: string, list: seq<T>, k: nat)
    requires Base(base) && ListPath(path) && k < Visible(|list|, resolves)
    ensures var url := StreamOf(base, resolves, path, list).urls[k];
            && (base <= url <==> k == 0)
            && TrimPrefix(url, base) == path + "?" + ListServer.QueryOf(k + 1, if k == 0 then 500 else PAGE_SIZE)
  {
    if k == 0 {
      FirstTarget(base, path);
    } else {
      assert StreamOf(base, resolves, path, list).urls[k] == ListServer.LinkURL(path, k + 1, PAGE_SIZE);
    }
  }

  lemma FirstTarget(base: string, path: string)
    ensures base <= FirstURL(base, path)
    ensures TrimPrefix(FirstURL(base, path), base) == path + "?" + ListServer.QueryOf(1, 500)
  {
    FirstQuery();
    FirstText(base, path, "page=1&per_page=500");
    assert "?" + "page=1&per_page=500" == "?page=1&per_page=500";
  }

  lemma FirstQuery()
    ensures ListServer.QueryOf(1, 500) == "page=1&per_page=500"
  {
  }

  lemma FirstText(base: string, path: string, query: string)
    ensures base <= base + path + ("?" + query)
    ensures TrimPrefix(base + path + ("?" + query), base) == path + "?" + query
  {
  }

  lemma AnswerAt<T>(path: string, list: seq<T>, k: nat, perPage: int)
    requires k < ListServer.PageCount(|list|, PAGE_SIZE) && |list| <= MAX_INT64 - PAGE_SIZE
    requires perPage == 500 || perPage == PAGE_SIZE
    ensures Answer(list, path, ListServer.QueryOf(k + 1, perPage)) ==
            Page(ListServer.PageOf(list, k + 1, PAGE_SIZE), ListServer.HeaderOf(path, k + 1, PAGE_SIZE, |list|))
  {
    ListServer.PageIsSafe(|list|, k + 1, PAGE_SIZE);
    ListServer.PageMeaning(list, k + 1, PAGE_SIZE);
    ListServer.ParseQueryOf(k + 1, perPage);
  }

  lemma ReadPageAt<T>(api: string -> Response<T>, url: string, items: seq<T>, path: string, k: nat, total: nat)
    requires ListPath(path) && k < ListServer.PageCount(total, PAGE_SIZE)
    requires api(url) == Page(items, ListServer.HeaderOf(path, k + 1, PAGE_SIZE, total))
    ensures ReadPage(api, url, false) ==
            if k + 1 < ListServer.PageCount(total, PAGE_SIZE) then (Items(items), ListServer.LinkURL(path, k + 2, PAGE_SIZE))
            else if k == 0 then (Items(items), "")
            else (Error, "")
  {
    ListServer.HeaderUnderstood(path, k + 1, PAGE_SIZE, total);
  }

  /** Main result, server as stream: the client sees every list of the mock server as its pages of 100 in
      order, followed link by link.  Of several pages a resolving client finds the last header unreadable;
      this client finds the first page and a link that it cannot follow. */
  lemma ServesList<T(!new)>(base: string, resolves: bool, lists: string -> Option<seq<T>>, path: string, list: seq<T>)
    requires Base(base) && ListPath(path) && lists(path) == Some(list) && |list| <= MAX_INT64 - PAGE_SIZE
    ensures Serves(Api(base, resolves, lists), FirstURL(base, path), StreamOf(base, resolves, path, list))
  {
    var api, st := Api(base, resolves, lists), StreamOf(base, resolves, path, list);
    forall k | 0 <= k < |st.urls| ensures PageServed(api, st, k) {
      ServesPage(base, resolves, lists, path, list, k);
    }
    forall k | 1 <= k < |st.urls| ensures st.urls[k] != "" && st.urls[k] != REQUEST_COMPLETED {
      assert st.urls[k] == ListServer.LinkURL(path, k + 1, PAGE_SIZE);
      assert st.urls[k][0] == '/';
    }
  }

  lemma ServesPage<T(!new)>(base: string, resolves: bool, lists: string -> Option<seq<T>>, path: string, list: seq<T>, k: nat)
    requires Base(base) && ListPath(path) && lists(path) == Some(list) && |list| <= MAX_INT64 - PAGE_SIZE
    requires k < Visible(|list|, resolves)
    ensures PageServed(Api(base, resolves, lists), StreamOf(base, resolves, path, list), k)
  {
    var api, st := Api(base, resolves, lists), StreamOf(base, resolves, path, list);
    StreamPage(base, resolves, path, list, k);
    if resolves || k == 0 {
      ApiPage(base, resolves, lists, path, list, k);
      ReadPageAt(api, st.urls[k], st.pages[k], path, k, |list|);
    } else {
      PageURL(base, resolves, path, list, k);
      ApiRefuses(base, lists, st.urls[k]);
    }
  }

  /** What the stream says of page `k + 1`. */
  lemma StreamPage<T>(base: string, resolves: bool, path: string, list: seq<T>, k: nat)
    requires k < Visible(|list|, resolves)
    ensures var st := StreamOf(base, resolves, path, list);
            && |st.urls| == |st.pages| == Visible(|list|, resolves)
            && PageAt(st, k) ==
               if k > 0 && !resolves then (Error, "")
               else if k + 1 < ListServer.PageCount(|list|, PAGE_SIZE) then (Items(st.pages[k]), ListServer.LinkURL(path, k + 2, PAGE_SIZE))
               else if k == 0 then (Items(st.pages[k]), "")
               else (Error, "")
  {
  }

  lemma ApiRefuses<T>(base: string, lists: string -> Option<seq<T>>, url: string)
    requires !(base <= url)
    ensures ReadPage(Api(base, false, lists), url, false) == (Error, "")
  {
  }

  lemma ApiPage<T>(base: string, resolves: bool, lists: string -> Option<seq<T>>, path: string, list: seq<T>, k: nat)
    requires Base(base) && ListPath(path) && lists(path) == Some(list) && |list| <= MAX_INT64 - PAGE_SIZE
    requires k < Visible(|list|, resolves) && (resolves || k == 0)
    ensures var st := StreamOf(base, resolves, path, list);
            Api(base, resolves, lists)(st.urls[k]) ==
            Page(st.pages[k], ListServer.HeaderOf(path, k + 1, PAGE_SIZE, |list|))
  {
    PageURL(base, resolves, path, list, k);
    StreamPages(base, resolves, path, list);
    ApiAnswers(base, resolves, lists, path, list, k, StreamOf(base, resolves, path, list).urls[k], if k == 0 then 500 else PAGE_SIZE);
  }

  lemma ApiAnswers<T>(base: string, resolves: bool, lists: string -> Option<seq<T>>, path: string, list: seq<T>,
                      k: nat, url: string, perPage: int)
    requires ListPath(path) && lists(path) == Some(list) && |list| <= MAX_INT64 - PAGE_SIZE
    requires k < ListServer.PageCount(|list|, PAGE_SIZE) && (perPage == 500 || perPage == PAGE_SIZE)
    requires (resolves || base <= url) && TrimPrefix(url, base) == path + "?" + ListServer.QueryOf(k + 1, perPage)
    ensures Api(base, resolves, lists)(url) ==
            Page(ListServer.PageOf(list, k + 1, PAGE_SIZE), ListServer.HeaderOf(path, k + 1, PAGE_SIZE, |list|))
  {
    ApiAt(base, resolves, lists, url, path, ListServer.QueryOf(k + 1, perPage));
    AnswerAt(path, list, k, perPage);
  }

  // ---- crawling a list ----

  lemma {:induction false} ConcatPages<T>(list: seq<T>, n: nat, pages: seq<seq<T>>)
    requires |pages| == n && forall i | 0 <= i < n :: pages[i] == ListServer.PageOf(list, i + 1, PAGE_SIZE)
    ensures Flatten(pages) == if n * PAGE_SIZE >= |list| then list else list[..n * PAGE_SIZE]
    decreases n
  {
    if n > 0 {
      ConcatPages(list, n - 1, pages[..n - 1]);
    }
  }

  /** Main result, crawl: following the mock server's links the client gets the whole list, unless it has
      more than 100 items; then this client stops with the first page in hand, and a resolving one fails at
      the last page with all earlier pages. */
  lemma CrawlOfList<T(!new)>(base: string, resolves: bool, lists: string -> Option<seq<T>>, path: string, list: seq<T>, fuel: nat)
    requires Base(base) && ListPath(path) && lists(path) == Some(list) && |list| <= MAX_INT64 - PAGE_SIZE
    requires fuel >= ListServer.PageCount(|list|, PAGE_SIZE)
    ensures var (pages, ending) := Crawl(Api(base, resolves, lists), FirstURL(base, path), "", fuel);
            if |list| <= PAGE_SIZE then Flatten(pages) == list && ending == Finished
            else
              && ending == Stopped
              && if resolves then Flatten(pages) == list[..(ListServer.PageCount(|list|, PAGE_SIZE) - 1) * PAGE_SIZE]
                 else pages == [list[..PAGE_SIZE]]
  {
    ServesList(base, resolves, lists, path, list);
    CrawlServed(Api(base, resolves, lists), FirstURL(base, path), StreamOf(base, resolves, path, list), fuel);
    ReadablePages(base, resolves, path, list);
  }

  lemma ReadablePages<T>(base: string, resolves: bool, path: string, list: seq<T>)
    ensures var st := StreamOf(base, resolves, path, list);
            && (st.broken <==> |list| > PAGE_SIZE)
            && 0 <= st.Readable() <= |st.pages|
            && if |list| <= PAGE_SIZE then Flatten(st.pages[..st.Readable()]) == list
               else if resolves then
                 Flatten(st.pages[..st.Readable()]) == list[..(ListServer.PageCount(|list|, PAGE_SIZE) - 1) * PAGE_SIZE]
               else st.pages[..st.Readable()] == [list[..PAGE_SIZE]]
  {
    var st := StreamOf(base, resolves, path, list);
    StreamPages(base, resolves, path, list);
    ConcatPages(list, st.Readable(), st.pages[..st.Readable()]);
    if |list| > PAGE_SIZE && !resolves {
      assert st.pages[0] == list[..PAGE_SIZE];
    }
  }

  lemma StreamPages<T>(base: string, resolves: bool, path: string, list: seq<T>)
    ensures var st := StreamOf(base, resolves, path, list);
            && |st.pages| == Visible(|list|, resolves)
            && forall i | 0 <= i < |st.pages| :: st.pages[i] == ListServer.PageOf(list, i + 1, PAGE_SIZE)
  {
  }

  // ---- the grants of a user ----

  /** The tables of the mock server that the synchroniser reads. */
  datatype Store = Store(users: seq<User>, jobs: map<int, seq<JobPermission>>, futures: map<int, seq<FutureJobPermission>>)

  /** The search of the user handlers: the first user with that ID. */
  function FindUser(users: seq<User>, id: int): (r: Option<User>)
    ensures r.Some? ==> r.value in users && r.value.id == id
    ensures r.None? <==> forall u | u in users :: u.id != id
  {
    if |users| == 0 then None
    else if users[0].id == id then Some(users[0])
    else
      assert users == [users[0]] + users[1..];
      FindUser(users[1..], id)
  }

  function JobsOf(store: Store, id: int): seq<JobPermission> { if id in store.jobs then store.jobs[id] else [] }

  function FuturesOf(store: Store, id: int): seq<FutureJobPermission> {
    if id in store.futures then store.futures[id] else []
  }

  /** The answer to the user request, whose path ends in the principal. */
  function UserOf(store: Store, principal: string): Option<User> {
    match Router.RouteOf(Router.USERS + principal)
    case UserByID(id) => FindUser(store.users, id)
    case _ => None
  }

  function JobLists(store: Store): string -> Option<seq<JobPermission>> {
    (path: string) =>
      match Router.RouteOf(path)
      case UserJobPermissions(id) => if FindUser(store.users, id).Some? then Some(JobsOf(store, id)) else None
      case _ => None
  }

  function FutureLists(store: Store): string -> Option<seq<FutureJobPermission>> {
    (path: string) =>
      match Router.RouteOf(path)
      case UserFutureJobPermissions(id) => if FindUser(store.users, id).Some? then Some(FuturesOf(store, id)) else None
      case _ => None
  }

  function WorldOf(base: string, resolves: bool, store: Store, principal: string): World {
    World(base, UserOf(store, principal), Api(base, resolves, JobLists(store)), Api(base, resolves, FutureLists(store)))
  }

  function StreamsOf(base: string, resolves: bool, store: Store, id: int): Streams {
    Streams(StreamOf(base, resolves, Router.JobsPath(id), JobsOf(store, id)),
            StreamOf(base, resolves, Router.FutureJobsPath(id), FuturesOf(store, id)))
  }

  /** A stored user who is no Site Admin, with an ID and lists that fit the server's integers. */
  predicate Member(store: Store, id: int) {
    && FindUser(store.users, id) == Some(User(id, false))
    && MIN_INT64 <= id <= MAX_INT64
    && |JobsOf(store, id)| <= MAX_INT64 - PAGE_SIZE && |FuturesOf(store, id)| <= MAX_INT64 - PAGE_SIZE
  }

  lemma ClientURLs(base: string, id: int)
    ensures JobsURL(base, id) == FirstURL(base, Router.JobsPath(id))
    ensures FutureJobsURL(base, id) == FirstURL(base, Router.FutureJobsPath(id))
  {
    EndTexts();
    URLText(base, Itoa(id), "/permissions/jobs", "?page=1&per_page=500");
    URLText(base, Itoa(id), "/permissions/future_jobs", "?page=1&per_page=500");
  }

  lemma EndTexts()
    ensures "/permissions/jobs?page=1&per_page=500" == "/permissions/jobs" + "?page=1&per_page=500"
    ensures "/permissions/future_jobs?page=1&per_page=500" == "/permissions/future_jobs" + "?page=1&per_page=500"
  {
  }

  lemma URLText(base: string, digits: string, end: string, query: string)
    ensures base + "/v1/users/" + digits + (end + query) == base + (Router.USERS + digits + end) + query
  {
  }

  lemma CleanPermissionPath(id: int, end: string)
    requires end == "/permissions/jobs" || end == "/permissions/future_jobs"
    ensures ListPath(Router.USERS + Itoa(id) + end)
  {
    ItoaChars(id);
    JobsEndFree();
    FutureJobsEndFree();
    assert Free(Router.USERS, ListServer.MARKS);
    FreeThree(Router.USERS, Itoa(id), end, ListServer.MARKS);
  }

  lemma JobsEndFree()
    ensures Free("/permissions/jobs", ListServer.MARKS)
  {
  }

  lemma FutureJobsEndFree()
    ensures Free("/permissions/future_jobs", ListServer.MARKS)
  {
    PermissionsFree();
    FutureJobsFree();
    assert "/permissions/future_jobs" == "/permissions/" + "future_jobs";
    FreeConcat("/permissions/", "future_jobs", ListServer.MARKS);
  }

  lemma PermissionsFree()
    ensures Free("/permissions/", ListServer.MARKS)
  {
  }

  lemma FutureJobsFree()
    ensures Free("future_jobs", ListServer.MARKS)
  {
  }

  lemma FreeThree(a: string, b: string, c: string, cs: set<char>)
    requires Free(a, cs) && Free(b, cs) && Free(c, cs)
    ensures Free(a + b + c, cs)
  {
  }

  /** The mock server answers the synchroniser's requests for every such user with these streams. */
  lemma MockAnswers(base: string, resolves: bool, store: Store, id: int)
    requires Base(base) && Member(store, id)
    ensures WorldOf(base, resolves, store, Itoa(id)).user == Some(User(id, false))
    ensures Answers(WorldOf(base, resolves, store, Itoa(id)), StreamsOf(base, resolves, store, id))
  {
    UserAnswered(store, id);
    ClientURLs(base, id);
    ServesJobs(base, resolves, store, id);
    ServesFutures(base, resolves, store, id);
  }

  /** A user's ID as principal asks for that user; no text of any other number finds one. */
  lemma UserAnswered(store: Store, id: int)
    ensures UserOf(store, Itoa(id)) == if MIN_INT64 <= id <= MAX_INT64 then FindUser(store.users, id) else None
  {
    var path := Router.USERS + Itoa(id);
    AtoiItoa(id);
    ItoaChars(id);
    Router.ItoaNoSlash(id);
    Router.SpelledUserRoute(Itoa(id), false);
    assert Router.SpelledUser(Itoa(id), false) == path;
  }

  /** The handlers find the user's two lists by their paths. */
  lemma ListsOf(store: Store, id: int)
    requires Member(store, id)
    ensures ListPath(Router.JobsPath(id)) && JobLists(store)(Router.JobsPath(id)) == Some(JobsOf(store, id))
    ensures ListPath(Router.FutureJobsPath(id)) && FutureLists(store)(Router.FutureJobsPath(id)) == Some(FuturesOf(store, id))
  {
    Router.PathRoundTrip(id);
    CleanPermissionPath(id, "/permissions/jobs");
    CleanPermissionPath(id, "/permissions/future_jobs");
  }

  lemma ServesJobs(base: string, resolves: bool, store: Store, id: int)
    requires Base(base) && Member(store, id)
    ensures Serves(Api(base, resolves, JobLists(store)), FirstURL(base, Router.JobsPath(id)),
                   StreamOf(base, resolves, Router.JobsPath(id), JobsOf(store, id)))
  {
    ListsOf(store, id);
    ServesList(base, resolves, JobLists(store), Router.JobsPath(id), JobsOf(store, id));
  }

  lemma ServesFutures(base: string, resolves: bool, store: Store, id: int)
    requires Base(base) && Member(store, id)
    ensures Serves(Api(base, resolves, FutureLists(store)), FirstURL(base, Router.FutureJobsPath(id)),
                   StreamOf(base, resolves, Router.FutureJobsPath(id), FuturesOf(store, id)))
  {
    ListsOf(store, id);
    ServesList(base, resolves, FutureLists(store), Router.FutureJobsPath(id), FuturesOf(store, id));
  }

  lemma StreamSize<T>(base: string, resolves: bool, path: string, list: seq<T>)
    ensures var st := StreamOf(base, resolves, path, list);
            && (st.broken <==> |list| > PAGE_SIZE)
            && (|list| <= PAGE_SIZE ==> |st.pages| == 1 && Flatten(st.pages) == list)
  {
    ReadablePages(base, resolves, path, list);
    var st := StreamOf(base, resolves, path, list);
    assert st.pages[..|st.pages|] == st.pages;
  }

  /** Main result, end to end: whatever fails on the way, and whether or not links are resolved, a run of the
      synchroniser against the mock server can end only for a user with at most 100 permissions of each
      kind; it ends exactly at the first attempt without a fault and has then granted exactly the roles of
      all of them. */
  lemma MockRun(base: string, resolves: bool, store: Store, id: int, run: seq<Attempt>)
    requires Base(base) && Member(store, id)
    requires IsRun(WorldOf(base, resolves, store, Itoa(id)), Itoa(id), "", run)
    ensures var small := |JobsOf(store, id)| <= PAGE_SIZE && |FuturesOf(store, id)| <= PAGE_SIZE;
            Ended(run) <==> small && Clear(run) >= 1
    ensures Ended(run) ==>
              Delivered(Runs.Accepted(run)) ==
              JobGrants(JobsOf(store, id), Itoa(id)) + FutureGrants(FuturesOf(store, id), Itoa(id))
  {
    var s := StreamsOf(base, resolves, store, id);
    MockAnswers(base, resolves, store, id);
    WholeRun(WorldOf(base, resolves, store, Itoa(id)), s, Itoa(id), run);
    StreamSize(base, resolves, Router.JobsPath(id), JobsOf(store, id));
    StreamSize(base, resolves, Router.FutureJobsPath(id), FuturesOf(store, id));
    if !s.Broken() {
      RunTracks(WorldOf(base, resolves, store, Itoa(id)), s, Itoa(id), 0, run);
      OnePageProgress(s, run);
    }
  }

  /** Main result, handlers: what a list handler answers to every query.  It refuses an unusable page or size;
      for any other it slices at the wrapped offset, fails when that is out of range, and says in the
      header which page the slice is. */
  lemma AnswerExactly<T>(list: seq<T>, path: string, query: string, pageValue: string, perPageValue: string, page: int, perPage: int)
    requires |list| <= MAX_INT64
    requires ListServer.FirstValue(Split(query, {'&'}), "page", pageValue)
    requires ListServer.FirstValue(Split(query, {'&'}), "per_page", perPageValue)
    ensures ListServer.Unusable(pageValue) || ListServer.Unusable(perPageValue) ==> Answer(list, path, query) == Refused
    ensures ListServer.StandsFor(pageValue, 1, page) && ListServer.StandsFor(perPageValue, 50, perPage) ==>
              var size := if perPage > 100 then 100 else perPage;
              var lo := ListServer.StartIndex(page, size);
              Answer(list, path, query) ==
              if lo < 0 || (lo < |list| && lo + size > MAX_INT64) then Refused
              else Page(ListServer.Window(list, lo, size), ListServer.HeaderOf(path, page, size, |list|))
  {
    ListServer.PaginationExactly(query, pageValue, perPageValue, page, perPage);
    if ListServer.StandsFor(pageValue, 1, page) && ListServer.StandsFor(perPageValue, 50, perPage) {
      ListServer.HandledExactly(list, page, if perPage > 100 then 100 else perPage);
    }
  }

  /** Main result, unknown users: for an ID that is not in the user table all three requests are refused, and
      no run for it ever grants anything or ends. */
  lemma UnknownUser(base: string, resolves: bool, store: Store, id: int, run: seq<Attempt>)
    requires Base(base) && forall u | u in store.users :: u.id != id
    requires IsRun(WorldOf(base, resolves, store, Itoa(id)), Itoa(id), "", run)
    ensures UserOf(store, Itoa(id)) == None
    ensures Api(base, resolves, JobLists(store))(JobsURL(base, id)) == Refused
    ensures Api(base, resolves, FutureLists(store))(FutureJobsURL(base, id)) == Refused
    ensures Runs.Accepted(run) == [] && !Ended(run) && CrashFree(run)
  {
    UserAnswered(store, id);
    UnknownLists(base, resolves, store, id);
    StuckRun(WorldOf(base, resolves, store, Itoa(id)), Itoa(id), "", run);
  }

  lemma UnknownLists(base: string, resolves: bool, store: Store, id: int)
    requires forall u | u in store.users :: u.id != id
    ensures Api(base, resolves, JobLists(store))(JobsURL(base, id)) == Refused
    ensures Api(base, resolves, FutureLists(store))(FutureJobsURL(base, id)) == Refused
  {
    ClientURLs(base, id);
    CleanPermissionPath(id, "/permissions/jobs");
    CleanPermissionPath(id, "/permissions/future_jobs");
    UnlistedPath(store, id);
    RefusedList(base, resolves, JobLists(store), Router.JobsPath(id));
    RefusedList(base, resolves, FutureLists(store), Router.FutureJobsPath(id));
  }

  lemma UnlistedPath(store: Store, id: int)
    requires forall u | u in store.users :: u.id != id
    ensures JobLists(store)(Router.JobsPath(id)) == None && FutureLists(store)(Router.FutureJobsPath(id)) == None
  {
    AtoiItoa(id);
    Router.ItoaNoSlash(id);
    Router.ClientPaths(id);
    Router.SpelledRoute(Itoa(id), false);
  }

  /** A path of no list is refused. */
  lemma RefusedList<T>(base: string, resolves: bool, lists: string -> Option<seq<T>>, path: string)
    requires ListPath(path) && lists(path) == None
    ensures Api(base, resolves, lists)(FirstURL(base, path)) == Refused
  {
    FirstTarget(base, path);
    ApiAt(base, resolves, lists, FirstURL(base, path), path, ListServer.QueryOf(1, 500));
  }

  /** A stored user without entries in the two tables has no permissions: a complete run grants nothing. */
  lemma NoPermissions(base: string, resolves: bool, store: Store, id: int, run: seq<Attempt>)
    requires Base(base) && Member(store, id) && id !in store.jobs && id !in store.futures
    requires IsRun(WorldOf(base, resolves, store, Itoa(id)), Itoa(id), "", run)
    ensures Ended(run) <==> Clear(run) >= 1
    ensures Ended(run) ==> Delivered(Runs.Accepted(run)) == {}
  {
    MockRun(base, resolves, store, id, run);
    assert JobGrants([], Itoa(id)) == {} && FutureGrants([], Itoa(id)) == {};
  }

  // ---- the roles ----

  const ROLES_PATH: string := "/v1/user_roles"

  /** The list that `listUserRolesHandler` answers from. */
  function RoleLists(roles: seq<UserRole>): string -> Option<seq<UserRole>> {
    (path: string) => if Router.RouteOf(path).UserRoles? then Some(roles) else None
  }

  /** Main result, listing against the mock server: whatever fails on the way, a listing can finish only for
      at most 100 roles; it finishes exactly at the first call without a fault, with their resources. */
  lemma MockListing(base: string, resolves: bool, roles: seq<UserRole>, faults: seq<bool>)
    requires Base(base) && |roles| <= MAX_INT64 - PAGE_SIZE
    ensures var (resources, ending) := ListRun(Api(base, resolves, RoleLists(roles)), FirstURL(base, ROLES_PATH), "", faults);
            && (ending == Finished <==> |roles| <= PAGE_SIZE && Faultless(faults) >= 1)
            && (ending == Finished ==> resources == AdminResources(roles) + [SITE_ADMIN])
  {
    var st := StreamOf(base, resolves, ROLES_PATH, roles);
    ServesRoles(base, resolves, roles);
    ListRunServed(Api(base, resolves, RoleLists(roles)), FirstURL(base, ROLES_PATH), st, faults);
    StreamSize(base, resolves, ROLES_PATH, roles);
    if |roles| <= PAGE_SIZE {
      OneListed(st.pages, roles);
    }
  }

  lemma ServesRoles(base: string, resolves: bool, roles: seq<UserRole>)
    requires Base(base) && |roles| <= MAX_INT64 - PAGE_SIZE
    ensures Serves(Api(base, resolves, RoleLists(roles)), FirstURL(base, ROLES_PATH),
                   StreamOf(base, resolves, ROLES_PATH, roles))
  {
    RolesPath();
    ServesList(base, resolves, RoleLists(roles), ROLES_PATH, roles);
  }

  lemma RolesPath()
    ensures Router.RouteOf(ROLES_PATH) == Router.UserRoles && ListPath(ROLES_PATH)
  {
    Router.PathRoundTrip(0);
    RolesPathFree();
  }

  lemma RolesPathFree()
    ensures Free("/v1/user_roles", ListServer.MARKS)
  {
  }

  lemma OneListed(pages: seq<seq<UserRole>>, roles: seq<UserRole>)
    requires |pages| == 1 && Flatten(pages) == roles
    ensures Listed(pages) == AdminResources(roles) + [SITE_ADMIN]
  {
    assert pages[..|pages| - 1] == [];
    var none: seq<seq<UserRole>> := [];
    assert Flatten(none) == [] && Listed(none) == [];
    assert roles == pages[0];
  }
}
