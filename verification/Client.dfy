/** The Greenhouse client's page fetchers (pkg/client/client.go).  The API is a fixed snapshot:
    a function from the requested URL to the response.  Transport faults are a parameter. */
module Client {
  import opened Text
  import opened LinkHeader

  const REQUEST_COMPLETED: string := "request_completed_no_more_pages"

  datatype JobPermission = JobPermission(id: int, jobID: int, userRoleID: int)

  datatype FutureJobPermission = FutureJobPermission(id: int, userRoleID: int)

  datatype User = User(id: int, siteAdmin: bool)

  /** An API response: an error status, or a page of items with its Link header. */
  datatype Response<+T> = Refused | Page(items: seq<T>, linkHeader: string)

  /** What a fetcher returns: items, an error, or the run-time error of the Link parser. */
  datatype Received<+T> = Items(items: seq<T>) | Error | Panic

  datatype Request = UserRequest(id: string) | JobRequest(url: string) | FutureRequest(url: string) | ListRequest(url: string)

  // ---- what the fetchers compute ----

  /** One request: the items and the parsed next link. */
  function ReadPage<T>(api: string -> Response<T>, url: string, fault: bool): (Received<T>, string) {
    if fault then (Error, "")
    else match api(url)
      case Refused => (Error, "")
      case Page(items, linkHeader) =>
        match Unmarshal(linkHeader, NO_LINKS)
        case (Accepted, l) => (Items(items), l.next)
        case (Malformed, _) => (Error, "")
        case (Panicked, _) => (Panic, "")
  }

  /** The response is a page whose Link header parses with that outcome. */
  predicate HeaderReads<T>(api: string -> Response<T>, url: string, outcome: Outcome) {
    api(url).Page? && Unmarshal(api(url).linkHeader, NO_LINKS).0 == outcome
  }

  /** A list call: the page at `next`, or the first page when there is none. */
  function ListPage<T>(api: string -> Response<T>, first: string, next: string, fault: bool): (Received<T>, string) {
    ReadPage(api, if next != "" then next else first, fault)
  }

  /** A permission call: the items, and the token that it leaves behind. */
  function Advance<T>(api: string -> Response<T>, first: string, token: string, fault: bool): (Received<T>, string) {
    if token == REQUEST_COMPLETED then (Items([]), token)
    else match ReadPage(api, if token == "" then first else token, fault)
      case (Items(items), next) => (Items(items), if next == "" then REQUEST_COMPLETED else next)
      case (failure, _) => (failure, token)
  }

  /** The requests that the permission calls make: none once the stream is completed. */
  function JobRequests(first: string, token: string): seq<Request> {
    if token == REQUEST_COMPLETED then [] else [JobRequest(if token == "" then first else token)]
  }

  function FutureRequests(first: string, token: string): seq<Request> {
    if token == REQUEST_COMPLETED then [] else [FutureRequest(if token == "" then first else token)]
  }

  function JobsURL(base: string, userID: int): string {
    base + "/v1/users/" + Itoa(userID) + "/permissions/jobs?page=1&per_page=500"
  }

  function FutureJobsURL(base: string, userID: int): string {
    base + "/v1/users/" + Itoa(userID) + "/permissions/future_jobs?page=1&per_page=500"
  }

  // ---- the fetchers ----

  /** `JobPermissionPaginationTokens`, passed by reference to the permission calls. */
  class PaginationTokens {
    var JobPermissionsToken: string
    var FutureJobPermissionsToken: string

    constructor (job: string, future: string)
      ensures JobPermissionsToken == job && FutureJobPermissionsToken == future
    {
      JobPermissionsToken, FutureJobPermissionsToken := job, future;
    }
  }

  class GreenhouseClient {
    const baseURL: string
    var requested: seq<Request>

    constructor (baseURL: string)
      ensures this.baseURL == baseURL && requested == []
    {
      this.baseURL, requested := baseURL, [];
    }

    method DoRequest<T>(request: Request, url: string, api: string -> Response<T>, fault: bool)
      returns (response: Response<T>)
      modifies this`requested
      ensures requested == old(requested) + [request]
      ensures response == if fault then Refused else api(url)
    {
      requested := requested + [request];
      response := if fault then Refused else api(url);
    }

    /** The tail of every fetcher: request, then parse the Link header of the response. */
    method GetPage<T>(request: Request, url: string, api: string -> Response<T>, fault: bool)
      returns (r: Received<T>, next: string)
      modifies this`requested
      ensures requested == old(requested) + [request]
      ensures (r, next) == ReadPage(api, url, fault)
    {
      var response := DoRequest(request, url, api, fault);
      if response.Refused? {
        return Error, "";
      }
      var link := new Link();
      var outcome := link.UnmarshalText(response.linkHeader);
      match outcome
      case Accepted => r, next := Items(response.items), link.Next;
      case Malformed => r, next := Error, "";
      case Panicked => r, next := Panic, "";
    }

    /** `ListUsers` and `ListUserRoles` */
    method List<T>(first: string, nextPageURL: string, api: string -> Response<T>, fault: bool)
      returns (r: Received<T>, next: string)
      modifies this`requested
      ensures requested == old(requested) + [ListRequest(if nextPageURL != "" then nextPageURL else first)]
      ensures (r, next) == ListPage(api, first, nextPageURL, fault)
    {
      var queryURL := first;
      if nextPageURL != "" {
        queryURL := nextPageURL;
      }
      r, next := GetPage(ListRequest(queryURL), queryURL, api, fault);
    }

    method GetJobPermissionsOfAUser(tokens: PaginationTokens, userID: int,
                                    api: string -> Response<JobPermission>, fault: bool)
      returns (r: Received<JobPermission>)
      modifies this`requested, tokens`JobPermissionsToken
      ensures (r, tokens.JobPermissionsToken) ==
              Advance(api, JobsURL(baseURL, userID), old(tokens.JobPermissionsToken), fault)
      ensures requested == old(requested) +
                JobRequests(JobsURL(baseURL, userID), old(tokens.JobPermissionsToken))
    {
      if tokens.JobPermissionsToken == REQUEST_COMPLETED {
        return Items([]);
      }
      var queryURL := JobsURL(baseURL, userID);
      var nextToken := tokens.JobPermissionsToken;
      if nextToken != "" {
        queryURL := nextToken;
      }
      var next;
      r, next := GetPage(JobRequest(queryURL), queryURL, api, fault);
      if !r.Items? {
        return;
      }
      if next == "" {
        tokens.JobPermissionsToken := REQUEST_COMPLETED;
      } else {
        tokens.JobPermissionsToken := next;
      }
    }

    method GetFutureJobPermissionsOfAUser(tokens: PaginationTokens, userID: int,
                                          api: string -> Response<FutureJobPermission>, fault: bool)
      returns (r: Received<FutureJobPermission>)
      modifies this`requested, tokens`FutureJobPermissionsToken
      ensures (r, tokens.FutureJobPermissionsToken) ==
              Advance(api, FutureJobsURL(baseURL, userID), old(tokens.FutureJobPermissionsToken), fault)
      ensures requested == old(requested) +
                FutureRequests(FutureJobsURL(baseURL, userID), old(tokens.FutureJobPermissionsToken))
    {
      if tokens.FutureJobPermissionsToken == REQUEST_COMPLETED {
        return Items([]);
      }
      var queryURL := FutureJobsURL(baseURL, userID);
      var nextToken := tokens.FutureJobPermissionsToken;
      if nextToken != "" {
        queryURL := nextToken;
      }
      var next;
      r, next := GetPage(FutureRequest(queryURL), queryURL, api, fault);
      if !r.Items? {
        return;
      }
      if next == "" {
        tokens.FutureJobPermissionsToken := REQUEST_COMPLETED;
      } else {
        tokens.FutureJobPermissionsToken := next;
      }
    }
  }

  // ---- paged streams ----

  /** What a list looks like page by page: the URL and the items of each page.  `broken` says that the last
      page cannot be had: its URL is refused, or its Link header does not parse. */
  datatype Stream<T> = Stream(urls: seq<string>, pages: seq<seq<T>>, broken: bool) {
    /** How many pages can be fetched. */
    function Readable(): int { if broken then |pages| - 1 else |pages| }
  }

  /** The API serves the stream: each page's header links to the next page, the last one's to none. */
  ghost predicate Serves<T(!new)>(api: string -> Response<T>, first: string, st: Stream<T>) {
    && |st.urls| == |st.pages| >= 1
    && st.urls[0] == first
    && (forall k | 1 <= k < |st.urls| :: st.urls[k] != "" && st.urls[k] != REQUEST_COMPLETED)
    && (forall k | 0 <= k < |st.urls| :: PageServed(api, st, k))
  }

  ghost predicate PageServed<T(!new)>(api: string -> Response<T>, st: Stream<T>, k: nat)
    requires |st.urls| == |st.pages| && k < |st.urls|
  {
    ReadPage(api, st.urls[k], false) == PageAt(st, k)
  }

  ghost function PageAt<T>(st: Stream<T>, k: nat): (Received<T>, string)
    requires |st.urls| == |st.pages| && k < |st.pages|
  {
    if k >= st.Readable() then (Error, "")
    else (Items(st.pages[k]), if k + 1 < |st.urls| then st.urls[k + 1] else "")
  }

  /** The token of a stream after `k` successful calls. */
  function TokenAt<T>(st: Stream<T>, k: nat): string {
    if k == 0 then "" else if k < |st.urls| then st.urls[k] else REQUEST_COMPLETED
  }

  /** One permission call on a served stream that is `k` pages in. */
  lemma AdvanceAt<T(!new)>(api: string -> Response<T>, first: string, st: Stream<T>, k: nat, fault: bool)
    requires Serves(api, first, st)
    ensures Advance(api, first, TokenAt(st, k), fault) ==
            if k >= |st.pages| then (Items([]), "request_completed_no_more_pages")
            else if fault || k >= st.Readable() then (Error, TokenAt(st, k))
            else (Items(st.pages[k]), TokenAt(st, k + 1))
  {
    if k < |st.pages| {
      assert TokenAt(st, k) != REQUEST_COMPLETED;
      assert (if TokenAt(st, k) == "" then first else TokenAt(st, k)) == st.urls[k];
      assert PageServed(api, st, k);
    }
  }

  /** A crawl: the pages of successive list calls until the returned link is empty, at most `fuel` calls. */
  function Crawl<T>(api: string -> Response<T>, first: string, next: string, fuel: nat): (seq<seq<T>>, Ending)
    decreases fuel
  {
    if fuel == 0 then ([], Unfinished)
    else match ListPage(api, first, next, false)
      case (Items(items), next') =>
        if next' == "" then ([items], Finished)
        else var (pages, ending) := Crawl(api, first, next', fuel - 1); ([items] + pages, ending)
      case (_, _) => ([], Stopped)
  }

  datatype Ending = Finished | Unfinished | Stopped

  lemma ListPageAt<T(!new)>(api: string -> Response<T>, first: string, st: Stream<T>, k: nat)
    requires Serves(api, first, st) && k < |st.pages|
    ensures ListPage(api, first, TokenAt(st, k), false) == PageAt(st, k)
  {
    assert (if TokenAt(st, k) != "" then TokenAt(st, k) else first) == st.urls[k];
    assert PageServed(api, st, k);
  }

  /** Main result, single stream: a crawl of a served list fetches its pages once each, in order; it
      finishes unless the last page cannot be had, and then it has every page but that one. */
  lemma {:induction false} CrawlServed<T(!new)>(api: string -> Response<T>, first: string, st: Stream<T>, fuel: nat)
    requires Serves(api, first, st) && fuel >= |st.pages|
    ensures Crawl(api, first, "", fuel) == (st.pages[..st.Readable()], if st.broken then Stopped else Finished)
  {
    CrawlFrom(api, first, st, 0, fuel);
    assert st.pages[0..] == st.pages;
  }

  /** One call of a crawl, given what the call returns. */
  lemma CrawlStep<T>(api: string -> Response<T>, first: string, next: string, fuel: nat, call: (Received<T>, string))
    requires fuel > 0 && ListPage(api, first, next, false) == call
    ensures Crawl(api, first, next, fuel) ==
            if !call.0.Items? then ([], Stopped)
            else if call.1 == "" then ([call.0.items], Finished)
            else
              var rest := Crawl(api, first, call.1, fuel - 1);
              ([call.0.items] + rest.0, rest.1)
  {
  }

  lemma {:induction false} CrawlFrom<T(!new)>(api: string -> Response<T>, first: string, st: Stream<T>, k: nat, fuel: nat)
    requires Serves(api, first, st) && k < |st.pages| && fuel >= |st.pages| - k
    ensures Crawl(api, first, TokenAt(st, k), fuel) ==
            (st.pages[k..st.Readable()], if st.broken then Stopped else Finished)
    decreases fuel
  {
    ListPageAt(api, first, st, k);
    CrawlStep(api, first, TokenAt(st, k), fuel, PageAt(st, k));
    if k + 1 < |st.pages| {
      CrawlFrom(api, first, st, k + 1, fuel - 1);
      assert st.pages[k..st.Readable()] == [st.pages[k]] + st.pages[k + 1..st.Readable()];
    } else {
      assert st.pages[k..st.Readable()] == if st.broken then [] else [st.pages[k]];
    }
  }
}
