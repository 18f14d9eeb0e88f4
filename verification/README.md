# A verified model of baton-greenhouse's pagination

The connector reads users, roles and permissions page by page from the Greenhouse Harvest API, and the
repository brings a mock server for that API. This project models the pagination end to end, from the
server's slices and Link headers through the client's header parser and page tokens to the grants that a
whole run of the synchroniser delivers, and proves what every run keeps.

| file | models |
|---|---|
| `Text.dfy` | the Go string operations in use: contains, split, join, delete, trim, `Itoa`, `Atoi` |
| `LinkHeader.dfy` | `Link.UnmarshalText`, `Link.MarshalText`, `getNextLink` |
| `Tokens.dfy` | `SerializeTokens`, `DeserializeTokens` with JSON string escapes |
| `Client.dfy` | the page fetchers, which advance the page tokens in place, and single-stream crawls |
| `Roles.dfy` | `extractUniqueUserRolesIDs`, `roleBuilder.List`, resource IDs, whole listings under faults and retries |
| `Grants.dfy` | `userBuilder.Grants` |
| `Runs.dfy` | whole runs of `Grants` under faults and retries |
| `RateLimiter.dfy` | `handleRateLimiting` |
| `ListServer.dfy` | `parsePagination`, the list handlers' slicing, `generateLinkHeader` |
| `Router.dfy` | the router, the user handlers' path parsing, the client's paths |
| `MockServer.dfy` | the client and the synchroniser against the mock server |
| `MockData.dfy` | the permission generator in `initMockData` |
| `Generated.dfy` | the connector against the mock server on generated data |

Conventions. A Go string is a `string`, a character standing for a character of the text. The API is a fixed
snapshot: a function from the requested URL to a response. Faults of the transport (a refused connection, an
error status, a 429) are parameters of each call and may be anything. Go's map iteration order and every
random choice are arbitrary (`:|`). Each body that runs under the limiter's mutex is one atomic step, so every
interleaving of handlers is a sequence of such steps; its two clock readings are parameters that never go back.
An index out of range in `UnmarshalText` is the outcome `Panicked`.

What the proofs establish about the code as it is, beyond the rows below:

- A printed `Link` does not always parse back (`LinkHeader.RoundTrip` says exactly when it does). Two pages
  whose `next` and `last` coincide are printed as a header that the parser refuses
  (`LinkHeader.EqualTargetsAreRefused`), and a target that contains a rel string makes it index before the
  first part.
- On the last page of a list of several pages the mock server sends only `prev` and `first`, which the client's
  parser refuses. A crawl, a listing or a grant run against the mock server therefore completes only for lists of
  one page, which is at most 100 items whatever page size the client asks for (`MockServer.CrawlOfList`,
  `MockServer.MockListing`, `MockServer.MockRun`).
- The mock server's links have no host, and the client sends a link as it stands. Of a longer list it therefore
  gets exactly the first page. The theorems about the mock server have a parameter `resolves`: `false` is this
  client; `true` is one that resolves links against its base URL, which gets all pages but the last.
- The mock server's own data stays below that size, so a run over it ends at its first attempt without a fault
  (`Generated.GeneratedRun`). Its job permissions may name interviewer roles, which the connector does not list
  as resources (`Generated.GeneratedReferences`).
- A refused user request fails the call and is asked again for ever (`Runs.StuckRun`); so is a first page with a
  malformed header (`Roles.ListRunRefused`).
- `getNextLink` takes the first link of a header, whatever its rel (`ListServer.ShortcutOnHeaders`). Nothing but
  its own unit test calls it.
- The page arithmetic of the list handlers wraps for very large page numbers: some accepted requests are then
  answered with another page, or fail on the slice bounds (`ListServer.Paginate` says for which).

## Model

| member | source | states |
|---|---|---|
| LinkHeader.Link.UnmarshalText | pkg/models/pagination.go:21-45 | The in-place parser loop yields the part before the last part that contains each rel; it panics exactly when the first part contains one, and leaves the object as it was on the early refusals |
| LinkHeader.UnmarshalRefusals | pkg/models/pagination.go:21-39 | On every text, by its separators alone: an empty one is accepted, one of one or of three parts is refused, both without a change, and any other panics if and only if a rel stands before the first separator |
| LinkHeader.ParseLinkList | pkg/models/pagination.go:25-42 | For every non-empty list of clean link-values with one rel each, with any white space before and after each link-value and around each semicolon: the last next and the last last are found, with the white space that is inside the part of the target; never a panic; refused only for two link-values that yield one target |
| LinkHeader.RoundTrip | pkg/models/pagination.go:21-56 | For every Link at all: printing and parsing into a fresh Link gives it back if and only if its targets hold no separator, bracket or misread rel string and next is empty or differs from last |
| LinkHeader.UnmarshalPrinted | pkg/models/pagination.go:31-42 | For bracket- and separator-free targets, which printed Links make the parser panic, which it refuses, and what it reads from the others |
| LinkHeader.EqualTargetsAreRefused | pkg/models/pagination.go:40-42 | A printed Link whose next equals its last is refused, for every clean target |
| LinkHeader.GetNextLinkTakesFirst | pkg/client/helpers.go:48-51 | The regular-expression shortcut returns the target of the first link-value, whatever its rel |
| LinkHeader.GetNextLinkLeftmost | pkg/client/helpers.go:17-51 | On every text at all the shortcut returns the leftmost non-empty text between brackets, and nothing if and only if there is none |
| Tokens.UnescapeEscape | pkg/client/helpers.go:62-84 | Every string survives the JSON escapes, `<`, `>`, `&`, control characters and line separators included, and reading stops at the closing quote |
| Tokens.EscapeSafe | pkg/client/helpers.go:62-69 | Whatever is printed, the printed string has no control character, angle bracket, ampersand or line separator |
| Tokens.ReadableExactly | pkg/client/helpers.go:72-84 | What can be read of a string body, by an if-and-only-if on its first characters: no raw control character, no escape but the eight short ones and `u` with four hexadecimal digits of either case |
| Tokens.SurrogatesRead | pkg/client/helpers.go:72-84 | Two escaped surrogates read as the one character they stand for, a lone one as the replacement character |
| Tokens.TokenRoundTrip | pkg/client/helpers.go:62-84 | Every pair of strings is read back from its token, and no pair prints as the empty token, which means start or done |
| Tokens.TokenText | pkg/client/helpers.go:54-69 | The printed object itself, with its two field names in order, for strings that need no escape |
| Tokens.DamagedTokens | pkg/client/helpers.go:72-84 | Every token cut short at any place, every token that anything follows, and every text that does not begin as a token does is refused |
| Tokens.SerializeInjective | pkg/client/helpers.go:62-69 | Two different pairs never share a token |
| Client.GreenhouseClient.GetPage | pkg/client/client.go:240-259 | One request is made; a fault, an error answer or a refused Link header gives an error and no items |
| Client.GreenhouseClient.List | pkg/client/client.go:43-84 | The single-stream list call asks for the given link, or the first page when there is none, and returns the parsed next link |
| Client.GreenhouseClient.GetJobPermissionsOfAUser | pkg/client/client.go:207-260 | The job token, updated through the reference, moves only when the page was received; a completed stream makes no request; the other token is untouched |
| Client.GreenhouseClient.GetFutureJobPermissionsOfAUser | pkg/client/client.go:264-317 | The same for the future-job token |
| Client.AdvanceAt | pkg/client/client.go:212-257 | From the token of page k a permission call delivers page k and leaves the token of page k+1, the completion sentinel after the last; a failure leaves the token as it was |
| Client.CrawlServed | pkg/client/client.go:320-360 | A crawl over a served list fetches each page once, in order, and stops; a last page that cannot be had, by its URL or its header, makes it fail there with all earlier pages in hand |
| Roles.ExtractUniqueUserRolesIDs | pkg/connector/roles.go:142-166 | For any visiting order of the map: the role IDs of the page, each once; an error exactly for an unknown list type |
| Roles.ResourceIDs | pkg/connector/roles.go:56-90 | The three families of resource IDs are injective and pairwise disjoint, for all integers (`ResourceTexts` says which texts they are) |
| Roles.ResourceTexts | pkg/connector/roles.go:56-90 | A job resource is the decimal text of its role ID, a future-job resource is `future-job:` and that text, the third is `site_admin`; every 64-bit ID is read back from its two |
| Roles.List | pkg/connector/roles.go:38-100 | One request; a page gives two resources for each of its job_admin roles in order, then `site_admin`, and the next link; a failed request gives none |
| Roles.AdminResourcesAt | pkg/connector/roles.go:50-86 | The k-th job_admin role of a page has at places 2k and 2k + 1 the decimal text of its ID and the future-job text of its ID; there are no other resources (`AdminResourcesSize`) |
| Roles.ListedExactly | pkg/connector/roles.go:50-96 | Over any pages a job or future-job resource is emitted if and only if its role ID is that of a job_admin role on them; the Site Admin resource is emitted by every page (`ListRunServed` obtains the pages from whole listings) |
| Roles.ListedCount | pkg/connector/roles.go:50-99 | Over roles with distinct IDs, P pages with A job_admin roles emit 2A + P resources, of which exactly 2A + 1 are distinct |
| Roles.ListRunServed | pkg/connector/roles.go:38-100 | A whole listing from the empty token over a served list, under any faults and retries: its resources are those of the first pages in order, one page for each call without a fault; it finishes exactly when it had one for every page, never when the last page cannot be had, and has then emitted the resources of all pages, each page once |
| Roles.FinishedListing | pkg/connector/roles.go:50-99 | After every finished listing: which resource IDs it emitted, by an if-and-only-if over the served job_admin roles, and how many, repeated and distinct |
| Roles.ListRunPanics | pkg/client/client.go:352-357 | A first page with a header that the parser panics on ends a listing at its first call without a fault, with nothing emitted |
| Roles.ListRunRefused | pkg/client/client.go:345-357 | A first page that is refused, or with a malformed header, keeps every listing from emitting anything or finishing |
| Grants.GrantJobRoles | pkg/connector/users.go:110-124 | One grant for each distinct role ID of the job permissions, none twice |
| Grants.GrantFutureRoles | pkg/connector/users.go:137-152 | One grant for each distinct role ID of the future-job permissions, none twice |
| Grants.GrantTexts | pkg/connector/users.go:110-152 | The grants of the two loops are the principal's, and name by their decimal texts exactly the role IDs of the items |
| Grants.NextTokenOf | pkg/connector/users.go:154-162 | The returned token is empty exactly when both streams are completed, and every other one is read back as the two tokens |
| Grants.GrantsOfPermissions | pkg/connector/users.go:99-164 | The two permission calls on shared tokens: grants of both pages without repetition and the next token, or nothing at all when either fails, even after the first token has moved; the requests made, in order |
| Grants.GrantsOfUser | pkg/connector/users.go:59-165 | The whole call: unreadable token, failed user request, Site Admin short cut, and the permission calls (`Runs.StuckRun`, `Runs.SiteAdminRun`, `Runs.WholeRun` and `Runs.CrashingRun` say what each branch means for whole runs) |
| Runs.ReachableTokens | pkg/connector/users.go:154-162 | After k calls the token is empty exactly at the start and once both streams are complete; any other decodes to the two positions, never to the initial state; unread pages strictly decrease |
| Runs.CallAt | pkg/connector/users.go:99-164 | A call from state k delivers exactly page k of each stream and moves to state k+1, or delivers nothing when a request that it makes fails |
| Runs.RunFollows | pkg/connector/users.go:59-165 | In every run from every reachable state k the i-th accepted result grants exactly page k + i, each grant once, and returns the token of the state after it, whatever failed in between, including after the job token moved, and in whatever map order |
| Runs.RunTracks | pkg/connector/users.go:59-165 | Every run refines the abstract walk over the two streams: a hit attempt fails and changes nothing, any other moves one page on |
| Runs.TracksEnding | pkg/connector/users.go:154-162 | A run ends exactly when max of the two page counts calls succeeded; it never crashes; a page that cannot be had bounds how far it gets |
| Runs.TracksProgress | pkg/connector/users.go:59-165 | With streams that can be read to the end every attempt without a fault succeeds |
| Runs.WholeRun | pkg/connector/users.go:59-165 | From the empty token: page after page in order, end after exactly max(J, F) successes, and then exactly the grants of all role IDs of both streams; no end with a broken stream; an end once enough attempts met no fault |
| Runs.GrantedTexts | pkg/connector/users.go:110-152 | A complete run grants to the principal the decimal and the future-job texts of exactly the role IDs of the two streams |
| Runs.CompleteRun | pkg/connector/users.go:59-165 | From every state of readable streams a complete run exists, and its attempts are as many as the pages left in the longer stream |
| Runs.RunsAgree | pkg/connector/users.go:101-135 | Failure transparency: any two runs, with different faults and map orders, agree result by result on the grants and on the token |
| Runs.RequestsAt | pkg/client/client.go:212-214 | Under any faults a call makes exactly: the user request; then that of page k of the job stream; then, unless that failed, that of page k of the future-job stream; a completed stream is never asked |
| Runs.RequestCost | pkg/connector/users.go:75-128 | A complete run without faults makes exactly max(J, F) + J + F requests, each page of each stream once and in order |
| Runs.SiteAdminRun | pkg/connector/users.go:84-97 | From every readable token a Site Admin's run ends at the first attempt whose user request succeeds, with the one `site_admin` grant |
| Runs.SiteAdminRequests | pkg/connector/users.go:84-97 | It asks for the user once an attempt, and never for permissions |
| Runs.StuckRun | pkg/connector/users.go:70-81 | While the user request is refused, and from every token that cannot be read, each attempt of every run fails with nothing granted; no run ends or crashes |
| Runs.StuckRequests | pkg/connector/users.go:70-81 | Such a run asks for the user once an attempt, or for nothing when the token cannot be read |
| Runs.CrashingRun | pkg/connector/users.go:101-130 | When the header of a first page makes the Link parser panic, a run crashes at the first attempt that gets to it, with nothing granted, and never ends |
| Runs.GrantsListedExactly | pkg/connector/users.go:60-64 | A complete run grants only resources of given role pages if and only if every role ID of its streams is that of a job_admin role on them |
| Runs.GrantsMeetListing | pkg/connector/users.go:60-64 | The same between two whole runs: the grants of a complete run are all among the resources of a finished listing if and only if every role ID of its streams is that of a served job_admin role |
| RateLimiter.Limiter.HandleRateLimiting | cmd/test-server/gh-test-server.go:318-341 | The locked body refines the limiter's step: lazy window reset at 60 s, refusal at zero, and the remaining count it reports |
| RateLimiter.SlidingBound | cmd/test-server/gh-test-server.go:318-341 | For every clock trace at most 40 (floor(L / 60 s) + 2) requests are admitted in any interval of length L |
| RateLimiter.SlidingBoundAttained | cmd/test-server/gh-test-server.go:321-324 | The bound is exact: for every length that is no whole number of windows some trace reaches it |
| RateLimiter.Conservation | cmd/test-server/gh-test-server.go:321-338 | In every reachable state the window is the one that the clock readings alone tell, whatever was refused in it, and what was admitted in it and what remains make 40 |
| RateLimiter.RefusedExactly | cmd/test-server/gh-test-server.go:321-336 | A request is refused if and only if 40 were admitted from the request that opened the window on and it is checked less than 60 s after that one's stamp, or after boot |
| RateLimiter.QuietAdmitted | cmd/test-server/gh-test-server.go:321-338 | No starvation: whenever fewer than 40 requests were admitted in the 60 s before its check a request is admitted, whatever was refused in between |
| RateLimiter.SpacedAdmitted | cmd/test-server/gh-test-server.go:321-338 | A request that is checked at least 60 s after the stamp of every admitted one is admitted |
| ListServer.TotalPagesBounds | cmd/test-server/gh-test-server.go:380 | The rounded-up real quotient is the least number of pages that holds all items |
| ListServer.TotalPagesIsCeiling | cmd/test-server/gh-test-server.go:380 | It equals the integer ceiling (n + perPage - 1) / perPage |
| ListServer.AcceptedPagination | cmd/test-server/gh-test-server.go:343-366 | Every accepted query has a page of 1 to 2^63 - 1 and a page size of 1 to 100; every query without pairs of the two keys is accepted as page 1 of size 50 |
| ListServer.PaginationExactly | cmd/test-server/gh-test-server.go:343-366 | Every query is refused if and only if the first value of one of the two parameters is given and is no decimal text of a number from 1 to 2^63 - 1; every other is read as the two numbers, the defaults for values not given, the size up to 100 |
| Text.AtoiExactly | cmd/test-server/gh-test-server.go:347-360 | `Atoi` accepts exactly the decimal texts, with at most one sign, of the 64-bit integers, and gives the number they write by place value |
| ListServer.ParseQueryOf | cmd/test-server/gh-test-server.go:343-378 | The query of every emitted link is read back as the same page, with the size capped at 100 |
| ListServer.Paginate | cmd/test-server/gh-test-server.go:497-508 | In 64-bit arithmetic the handler answers with the page that was asked for if and only if no product wraps to a start inside the list and no end wraps |
| ListServer.HandledExactly | cmd/test-server/gh-test-server.go:497-508 | Every request is answered with the window at its start wrapped to 64 bits, or fails on its bounds if and only if that start is negative or its end passes 2^63 - 1 with the start inside the list |
| ListServer.SmallProductsSafe | cmd/test-server/gh-test-server.go:498-499 | Every request with page times perPage up to 2^63 - 1 is safe |
| ListServer.WrappedPage | cmd/test-server/gh-test-server.go:498-508 | An accepted unsafe request: page 2^58 + 1 of size 64 is answered with page 1 of every non-empty list instead of nothing |
| ListServer.PagesPartition | cmd/test-server/gh-test-server.go:498-508 | For every list and page size the slices of all pages put together are the list |
| ListServer.GenerateLinkHeader | cmd/test-server/gh-test-server.go:368-397 | The header that the appends and the join produce is the list of link-values given by the position of the page (`HeaderNames` reads it back) |
| ListServer.HeaderNames | cmd/test-server/gh-test-server.go:380-396 | For every rel, read from the text of the header of every page of every list: next names page p + 1, last page N, prev page p - 1 and first page 1, each on exactly the pages that have it, up to the kept blank; no header on an only page or for an empty list; no prev or first on page 1 |
| ListServer.HeaderUnderstood | cmd/test-server/gh-test-server.go:380-396 | The client's parser on the header of page p of N: next and, after a blank, last for p < N; nothing for p = N = 1; refused for p = N > 1; last alone for p > N |
| ListServer.ShortcutOnHeaders | pkg/client/helpers.go:48-51 | The shortcut finds the next link of every page that has one, and takes last or prev for it on every later page of a list of several |
| ListServer.FollowedAll | cmd/test-server/gh-test-server.go:368-397 | Following the next link that the parser reads from the text of each header visits every page once from page 1, in order, and stops, and the visited pages make up the list; an empty list is one empty page |
| Router.PathRoundTrip | cmd/test-server/gh-test-server.go:766-786 | For every 64-bit id the client's paths reach the matching handler, which reads the same id back |
| Router.PermissionRoutesExactly | cmd/test-server/gh-test-server.go:657-786 | Each permission handler answers for an id if and only if the path spells that id in its place, give or take one trailing slash |
| Router.UserRouteExactly | cmd/test-server/gh-test-server.go:766-786 | The user handler answers for an id if and only if the path spells that id, give or take one trailing slash |
| Router.BadUserIDExactly | cmd/test-server/gh-test-server.go:632-667 | A bad ID is reported exactly for a permission path whose ID is no 64-bit number |
| MockServer.ServesList | cmd/test-server/gh-test-server.go:563-586 | To a client that resolves links every list of the mock server is the stream of its pages of 100, followed link by link, whose last header is unreadable when there are several; to this client it is the first page and, when there are several, a link that it cannot follow |
| MockServer.CrawlOfList | pkg/client/client.go:320-360 | A crawl of the mock server returns the whole list if it has at most 100 items; otherwise this client stops with exactly the first 100, and a client that resolves links fails at the last page with all earlier pages |
| MockServer.AnswerExactly | cmd/test-server/gh-test-server.go:563-586 | What a list handler answers to every query: refused for an unusable page or size, and otherwise the slice at the wrapped start with the header of the page, or a failure on the bounds |
| MockServer.MockAnswers | cmd/test-server/gh-test-server.go:588-755 | Through routing, the search for the user, parsing, slicing and headers the mock server answers the three requests of the synchroniser for the ID of every stored user who is no Site Admin: that user, and these two streams |
| MockServer.MockRun | pkg/connector/users.go:59-165 | Against the mock server, whether or not links are resolved, a run ends if and only if the user has at most 100 permissions of each kind and some attempt met no fault; it has then granted exactly all of them |
| MockServer.UnknownUser | cmd/test-server/gh-test-server.go:588-726 | For every ID that is not in the user table all three requests are refused, and no run for it grants anything, ends or crashes |
| MockServer.NoPermissions | cmd/test-server/gh-test-server.go:681-739 | A stored user without entries in the permission tables has empty lists, and a complete run grants nothing |
| MockServer.MockListing | cmd/test-server/gh-test-server.go:607-630 | Against the mock server, whether or not links are resolved, a listing finishes if and only if there are at most 100 roles and some call met no fault; it has then emitted their resources |
| MockData.Perm | cmd/test-server/gh-test-server.go:236 | The random order of the jobs is a permutation, whatever is drawn |
| MockData.ChooseFutureRole | cmd/test-server/gh-test-server.go:265-287 | A job_admin role while the table has one, else an interviewer role, else any, else the fallback |
| MockData.ChooseJobRole | cmd/test-server/gh-test-server.go:240-255 | A job_admin or interviewer role while the table has one, else any, else the fallback |
| MockData.AllowedExactly | cmd/test-server/gh-test-server.go:240-287 | The allowed roles are those of the table that are nearest to job_admin, interviewer before any other, and 998 or 999 for an empty table; a job permission does not tell the two known types apart |
| MockData.Generator.GenerateJobPermissions | cmd/test-server/gh-test-server.go:233-261 | Consecutive new IDs, distinct existing jobs, allowed roles, between 3 and a third of the jobs plus 3 |
| MockData.Generator.GenerateFutureJobPermissions | cmd/test-server/gh-test-server.go:263-312 | Consecutive new IDs, allowed roles, one to eight |
| MockData.Generator.GeneratePermissions | cmd/test-server/gh-test-server.go:232-313 | For any random choices the IDs of all permissions of all users are 1 up to the counter, and every user's permissions fit the tables |
| MockData.Generator.InitMockData | cmd/test-server/gh-test-server.go:130-314 | The same for the server's own 50 users, 75 jobs and 9 roles |
| MockData.FilledIDs | cmd/test-server/gh-test-server.go:256-310 | In filled tables no permission ID repeats across users and kinds, and every number below the counter is one |
| MockData.FutureRolesAreAdmin | cmd/test-server/gh-test-server.go:214-284 | With the server's role table every future-job permission names role 1, 4, 5 or 6, which are its job_admin roles |
| Generated.Start | cmd/test-server/gh-test-server.go:757-758 | What the server answers from once started: the user table and the generated permissions |
| Generated.GeneratedRun | cmd/test-server/gh-test-server.go:232-313 | For every generated user who is no Site Admin, whatever was drawn, a run ends exactly at its first attempt without a fault and grants exactly the generated permissions |
| Generated.GeneratedAdminRun | pkg/connector/users.go:84-97 | For the other three users it ends at the first attempt whose user request succeeds, with the one Site Admin grant |
| Generated.GeneratedReferences | pkg/connector/users.go:60-64 | Of what a run for a generated user grants, a finished listing of the server has every future-job resource and every job resource but those of interviewer roles, the case that the source warns of |

## Left out

- Tokens.Deserialize: reads the empty text and the object that `SerializeTokens` prints; other JSON spellings of the object (white space, key order, missing or unknown keys) are reported as errors, because the connector never produces them.
- ListServer.TotalPages: `math.Ceil` is taken over the reals, not over 64-bit floating point; the counts involved are far below 2^53.
- ListServer.ParsePagination: no percent- or plus-decoding of the query; the emitted queries need none.
- MockServer.Api: the client's transport fails for a URL without a host; `resolves` stands for a client that is not in the repository.
- MockServer.WorldOf: the user's ID is put in the path as it stands; the cleaning of paths in `url.JoinPath` leaves decimal numbers alone.
- Client.Serves: the served data is fixed during a run, and no link is empty or equals the completion sentinel.
- Router.RouteOf: the redirects of the standard multiplexer for paths with empty or dotted segments.
- RateLimiter.Limiter.HandleRateLimiting: the limit and reset headers, and the body of a refusal.
- MockData.Generator.InitMockData: candidates, applications, names and times, and the office and department fields, which are nil for every job of the tables.
- HTTP transport, authentication, TLS, URL joining and parsing, and the decoding of response bodies: library code. A fetch returns a page with its Link header, or fails.
- The SDK's resource, entitlement and grant builders, annotations and rate-limit descriptions: only the resource ID and the principal are kept.
- `CreateAccount`, `Revoke`, `GetUserByEmail` and the admin lookups: single requests without pages or tokens; what they promise is what the Greenhouse API does with them.
- `userBuilder.List` converts each user of a page without further state; the paging below it is `Client.GreenhouseClient.List`.
- Configuration, entry points, logging and error texts.
