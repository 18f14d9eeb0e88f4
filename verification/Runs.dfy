/** Whole runs of the grant synchroniser over paged streams: what every run delivers, whatever fails
    on the way and in whatever order the deduplicating maps are visited. */
module Runs {
  import opened Text
  import opened Tokens
  import opened Client
  import LinkHeader
  import opened Roles
  import opened Grants

  datatype Streams = Streams(jobs: Stream<JobPermission>, futures: Stream<FutureJobPermission>) {
    /** The number of calls that read both streams to the end. */
    function Length(): nat {
      if |jobs.pages| >= |futures.pages| then |jobs.pages| else |futures.pages|
    }

    predicate Broken() { jobs.broken || futures.broken }

    /** The number of calls that can succeed: a broken stream stops the run before its last page. */
    function Reach(): int {
      var r := if jobs.broken then |jobs.pages| - 1 else Length();
      if futures.broken && |futures.pages| - 1 < r then |futures.pages| - 1 else r
    }

    function PairAt(k: nat): TokenPair {
      TokenPair(TokenAt(jobs, k), TokenAt(futures, k))
    }

    /** The token that the engine holds after `k` successful calls. */
    function StateToken(k: nat): string {
      if k == 0 then "" else NextToken(PairAt(k))
    }

    /** What call number `k` delivers: page `k` of each stream that has one. */
    function PageGrants(k: nat, principal: string): set<Grant> {
      (if k < |jobs.pages| then JobGrants(jobs.pages[k], principal) else {}) +
      (if k < |futures.pages| then FutureGrants(futures.pages[k], principal) else {})
    }

    /** Some request of call number `k` is made and fails. */
    predicate Hit(k: nat, faults: Faults) {
      || faults.user
      || (k < |jobs.pages| && (faults.job || k >= jobs.Readable()))
      || (k < |futures.pages| && (faults.future || k >= futures.Readable()))
    }

    function Unread(k: nat): nat {
      (if k < |jobs.pages| then |jobs.pages| - k else 0) + (if k < |futures.pages| then |futures.pages| - k else 0)
    }
  }

  /** The endpoints answer for a user who is no Site Admin, with these two streams. */
  ghost predicate Answers(w: World, s: Streams) {
    && w.user.Some? && !w.user.value.siteAdmin
    && Serves(w.jobs, JobsURL(w.base, w.user.value.id), s.jobs)
    && Serves(w.futures, FutureJobsURL(w.base, w.user.value.id), s.futures)
  }

  // ---- tokens ----

  lemma TokenAtCompleted<T(!new)>(api: string -> Response<T>, first: string, st: Stream<T>, k: nat)
    requires Serves(api, first, st)
    ensures TokenAt(st, k) == REQUEST_COMPLETED <==> k >= |st.pages|
    ensures TokenAt(st, k) == "" <==> k == 0
  {
  }

  /** The reachable tokens: empty exactly at the start and once both streams are complete; otherwise
      they decode to the two positions, never to the initial state; and each call leaves less unread. */
  lemma ReachableTokens(w: World, s: Streams, k: nat)
    requires Answers(w, s)
    ensures s.StateToken(k) == "" <==> k == 0 || k >= s.Length()
    ensures k < s.Length() ==> Deserialize(s.StateToken(k)) == Some(s.PairAt(k))
    ensures s.PairAt(k) == UNSTARTED <==> k == 0
    ensures k < s.Length() ==> s.Unread(k + 1) < s.Unread(k)
  {
    TokenAtCompleted(w.jobs, JobsURL(w.base, w.user.value.id), s.jobs, k);
    TokenAtCompleted(w.futures, FutureJobsURL(w.base, w.user.value.id), s.futures, k);
    TokenRoundTrip(s.PairAt(k));
  }

  // ---- one call ----

  lemma PermissionCallAt(w: World, s: Streams, k: nat, principal: string, faults: Faults)
    requires Answers(w, s) && k < s.Length()
    ensures PermissionCall(w, w.user.value.id, principal, faults, s.PairAt(k)) ==
            if s.Hit(k, faults.(user := false)) then Rejected(Failed)
            else Granted(s.PageGrants(k, principal), s.StateToken(k + 1))
  {
    AdvanceAt(w.jobs, JobsURL(w.base, w.user.value.id), s.jobs, k, faults.job);
    AdvanceAt(w.futures, FutureJobsURL(w.base, w.user.value.id), s.futures, k, faults.future);
    assert JobGrants([], principal) == {} && FutureGrants([], principal) == {};
  }

  /** A call from the token of state `k` delivers exactly page `k` of each stream and moves to state
      `k + 1`, or, when a request that it makes fails, delivers nothing. */
  lemma CallAt(w: World, s: Streams, k: nat, principal: string, faults: Faults)
    requires Answers(w, s) && k < s.Length()
    ensures CallOf(w, principal, faults, s.StateToken(k)) ==
            if s.Hit(k, faults) then Rejected(Failed)
            else Granted(s.PageGrants(k, principal), s.StateToken(k + 1))
  {
    ReachableTokens(w, s, k);
    PermissionCallAt(w, s, k, principal, faults);
  }

  // ---- runs ----

  datatype Attempt = Attempt(faults: Faults, result: Result)

  /** The engine's loop: on success go on with the returned token until it is empty, on an error call
      again with the same token, on a crash stop. */
  ghost predicate IsRun(w: World, principal: string, token: string, run: seq<Attempt>)
    decreases |run|
  {
    |run| == 0 ||
    (var r := run[0].result;
     && Returns(CallOf(w, principal, run[0].faults, token), r)
     && match r.status
        case Failed => IsRun(w, principal, token, run[1..])
        case Done => if r.nextToken == "" then |run| == 1 else IsRun(w, principal, r.nextToken, run[1..])
        case Crashed => |run| == 1)
  }

  function Accepted(run: seq<Attempt>): seq<Result> {
    if |run| == 0 then []
    else (if run[0].result.status.Done? then [run[0].result] else []) + Accepted(run[1..])
  }

  predicate Ended(run: seq<Attempt>) {
    |run| > 0 && run[|run| - 1].result.status.Done? && run[|run| - 1].result.nextToken == ""
  }

  predicate CrashFree(run: seq<Attempt>) {
    forall a | a in run :: !a.result.status.Crashed?
  }

  /** The result of a call from state `k` that never failed. */
  ghost predicate ResultAt(s: Streams, principal: string, k: nat, r: Result) {
    && r.status.Done?
    && Distinct(r.grants) && ToSet(r.grants) == s.PageGrants(k, principal)
    && r.nextToken == s.StateToken(k + 1)
  }

  /** `ok` holds of each element together with its number, counted from `k`. */
  ghost predicate Each<T(!new)>(ok: (nat, T) -> bool, k: nat, xs: seq<T>) {
    forall i | 0 <= i < |xs| :: ok(k + i, xs[i])
  }

  lemma EachCons<T(!new)>(ok: (nat, T) -> bool, k: nat, x: T, xs: seq<T>)
    requires ok(k, x) && Each(ok, k + 1, xs)
    ensures Each(ok, k, [x] + xs)
  {
    var all := [x] + xs;
    forall i | 0 <= i < |all| ensures ok(k + i, all[i]) {
      assert i > 0 ==> ok(k + 1 + (i - 1), xs[i - 1]);
    }
  }

  /** The i-th accepted result from state `k` on is that of page `k + i` in a run that never failed. */
  ghost predicate Follows(s: Streams, principal: string, k: nat, accepted: seq<Result>) {
    Each(NeverFailed(s, principal), k, accepted)
  }

  ghost function NeverFailed(s: Streams, principal: string): (nat, Result) -> bool {
    (k: nat, r: Result) => ResultAt(s, principal, k, r)
  }

  /** One attempt from state `k`: failed exactly when a request that it makes fails. */
  lemma AttemptAt(w: World, s: Streams, principal: string, k: nat, a: Attempt)
    requires Answers(w, s) && k < s.Length()
    requires Returns(CallOf(w, principal, a.faults, s.StateToken(k)), a.result)
    ensures s.Hit(k, a.faults) ==> a.result.status.Failed?
    ensures !s.Hit(k, a.faults) ==> ResultAt(s, principal, k, a.result)
    ensures !s.Hit(k, a.faults) ==> (a.result.nextToken == "" <==> k + 1 == s.Length())
  {
    CallAt(w, s, k, principal, a.faults);
    ReachableTokens(w, s, k + 1);
  }

  lemma RunStep(w: World, principal: string, token: string, run: seq<Attempt>)
    requires |run| > 0 && IsRun(w, principal, token, run)
    ensures Returns(CallOf(w, principal, run[0].faults, token), run[0].result)
    ensures run[0].result.status.Failed? ==> IsRun(w, principal, token, run[1..])
    ensures run[0].result.status.Done? ==>
              if run[0].result.nextToken == "" then |run| == 1
              else IsRun(w, principal, run[0].result.nextToken, run[1..])
  {
  }

  /** Main result, contents: the accepted results of every run follow the pages in order, whatever
      failed in between and in whatever order the maps were visited. */
  lemma {:induction false} RunFollows(w: World, s: Streams, principal: string, k: nat, run: seq<Attempt>)
    requires Answers(w, s) && k < s.Length()
    requires IsRun(w, principal, s.StateToken(k), run)
    ensures Follows(s, principal, k, Accepted(run))
    decreases |run|
  {
    if |run| > 0 {
      var rest := run[1..];
      AttemptAt(w, s, principal, k, run[0]);
      RunStep(w, principal, s.StateToken(k), run);
      if s.Hit(k, run[0].faults) {
        RunFollows(w, s, principal, k, rest);
        assert Accepted(run) == Accepted(rest);
      } else if k + 1 == s.Length() {
        assert Accepted(run) == [run[0].result] + [];
        EachCons(NeverFailed(s, principal), k, run[0].result, []);
      } else {
        RunFollows(w, s, principal, k + 1, rest);
        assert Accepted(run) == [run[0].result] + Accepted(rest);
        EachCons(NeverFailed(s, principal), k, run[0].result, Accepted(rest));
      }
    }
  }

  /** The control flow of a run seen from the streams: an attempt that is hit fails and leaves the state
      as it was, any other succeeds and moves on, and the run stops once both streams are read. */
  predicate Tracks(s: Streams, k: nat, run: seq<Attempt>)
    decreases |run|
  {
    |run| == 0 ||
    (var r := run[0].result;
     if s.Hit(k, run[0].faults) then r.status.Failed? && Tracks(s, k, run[1..])
     else r.status.Done? && if k + 1 == s.Length() then r.nextToken == "" && |run| == 1
                            else r.nextToken != "" && Tracks(s, k + 1, run[1..]))
  }

  /** Main result, control: every run of the synchroniser tracks the two streams. */
  lemma {:induction false} RunTracks(w: World, s: Streams, principal: string, k: nat, run: seq<Attempt>)
    requires Answers(w, s) && k < s.Length()
    requires IsRun(w, principal, s.StateToken(k), run)
    ensures Tracks(s, k, run)
    decreases |run|
  {
    if |run| > 0 {
      AttemptAt(w, s, principal, k, run[0]);
      RunStep(w, principal, s.StateToken(k), run);
      if s.Hit(k, run[0].faults) {
        RunTracks(w, s, principal, k, run[1..]);
      } else if k + 1 < s.Length() {
        RunTracks(w, s, principal, k + 1, run[1..]);
      }
    }
  }

  /** A run ends exactly when both streams are read, which a broken stream prevents; it never crashes. */
  lemma {:induction false} TracksEnding(s: Streams, k: nat, run: seq<Attempt>)
    requires k < s.Length() && k <= s.Reach() && Tracks(s, k, run)
    ensures k + |Accepted(run)| <= s.Reach()
    ensures Ended(run) <==> k + |Accepted(run)| == s.Length()
    ensures CrashFree(run)
    decreases |run|
  {
    if |run| > 0 {
      var rest := run[1..];
      assert run == [run[0]] + rest;
      if s.Hit(k, run[0].faults) {
        TracksEnding(s, k, rest);
      } else if k + 1 < s.Length() {
        TracksEnding(s, k + 1, rest);
      } else {
        assert Accepted(rest) == [];
      }
    }
  }

  /** The number of attempts without a fault. */
  function Clear(run: seq<Attempt>): nat {
    if |run| == 0 then 0 else (if run[0].faults == NO_FAULTS then 1 else 0) + Clear(run[1..])
  }

  /** Progress: with streams that can be read to the end every attempt without a fault succeeds, so enough
      of them end the run. */
  lemma {:induction false} TracksProgress(s: Streams, k: nat, run: seq<Attempt>)
    requires k < s.Length() && !s.Broken() && Tracks(s, k, run)
    ensures |Accepted(run)| >= Clear(run)
    decreases |run|
  {
    if |run| > 0 {
      if s.Hit(k, run[0].faults) {
        TracksProgress(s, k, run[1..]);
      } else if k + 1 < s.Length() {
        TracksProgress(s, k + 1, run[1..]);
      }
    }
  }

  /** Over two streams of one page an attempt succeeds exactly when it has no fault. */
  lemma {:induction false} OnePageProgress(s: Streams, run: seq<Attempt>)
    requires |s.jobs.pages| == |s.futures.pages| == 1 && !s.Broken() && Tracks(s, 0, run)
    ensures |Accepted(run)| == Clear(run)
    decreases |run|
  {
    if |run| > 0 && s.Hit(0, run[0].faults) {
      OnePageProgress(s, run[1..]);
    }
  }

  // ---- whole runs ----

  /** Everything that a sequence of results grants. */
  function Delivered(accepted: seq<Result>): set<Grant> {
    if |accepted| == 0 then {} else ToSet(accepted[0].grants) + Delivered(accepted[1..])
  }

  /** The plain set of grants that the two streams stand for. */
  function Expected(s: Streams, principal: string): set<Grant> {
    JobGrants(Flatten(s.jobs.pages), principal) + FutureGrants(Flatten(s.futures.pages), principal)
  }

  /** The union of `f(lo)`, ..., `f(hi - 1)`. */
  ghost function UnionOf<T(!new)>(f: nat -> set<T>, lo: nat, hi: nat): set<T>
    decreases hi - lo
  {
    if lo >= hi then {} else f(lo) + UnionOf(f, lo + 1, hi)
  }

  lemma {:induction false} UnionMembers<T(!new)>(f: nat -> set<T>, lo: nat, hi: nat, x: T)
    ensures x in UnionOf(f, lo, hi) <==> exists k | lo <= k < hi :: x in f(k)
    decreases hi - lo
  {
    if lo < hi {
      UnionMembers(f, lo + 1, hi, x);
    }
  }

  /** The grants of each accepted result, without the rest of what `Follows` says. */
  ghost predicate GrantsAre(f: nat -> set<Grant>, k: nat, accepted: seq<Result>) {
    forall i | 0 <= i < |accepted| :: ToSet(accepted[i].grants) == f(k + i)
  }

  lemma GrantsAreRest(f: nat -> set<Grant>, k: nat, accepted: seq<Result>)
    requires GrantsAre(f, k, accepted) && |accepted| > 0
    ensures ToSet(accepted[0].grants) == f(k) && GrantsAre(f, k + 1, accepted[1..])
  {
    assert ToSet(accepted[0].grants) == f(k + 0);
    forall i | 0 <= i < |accepted| - 1 ensures ToSet(accepted[1..][i].grants) == f(k + 1 + i) {
      assert ToSet(accepted[i + 1].grants) == f(k + (i + 1));
    }
  }

  lemma {:induction false} GrantsDelivered(f: nat -> set<Grant>, k: nat, accepted: seq<Result>)
    requires GrantsAre(f, k, accepted)
    ensures Delivered(accepted) == UnionOf(f, k, k + |accepted|)
    decreases |accepted|
  {
    if |accepted| > 0 {
      GrantsAreRest(f, k, accepted);
      GrantsDelivered(f, k + 1, accepted[1..]);
    }
  }

  /** What pages `lo` to `hi - 1` grant. */
  ghost function Between(s: Streams, principal: string, lo: nat, hi: nat): set<Grant> {
    UnionOf(PageByPage(s, principal), lo, hi)
  }

  ghost function PageByPage(s: Streams, principal: string): nat -> set<Grant> {
    (k: nat) => s.PageGrants(k, principal)
  }

  lemma FollowsGrants(s: Streams, principal: string, k: nat, accepted: seq<Result>)
    requires Follows(s, principal, k, accepted)
    ensures GrantsAre(PageByPage(s, principal), k, accepted)
  {
    forall i | 0 <= i < |accepted| ensures ToSet(accepted[i].grants) == PageByPage(s, principal)(k + i) {
      NeverFailedGrants(s, principal, k + i, accepted[i]);
    }
  }

  lemma NeverFailedGrants(s: Streams, principal: string, k: nat, r: Result)
    requires NeverFailed(s, principal)(k, r)
    ensures ToSet(r.grants) == PageByPage(s, principal)(k)
  {
  }

  lemma BetweenMembers(s: Streams, principal: string, lo: nat, hi: nat, g: Grant)
    ensures g in Between(s, principal, lo, hi) <==> exists k | lo <= k < hi :: g in s.PageGrants(k, principal)
  {
    UnionMembers(PageByPage(s, principal), lo, hi, g);
    assert forall k: nat :: PageByPage(s, principal)(k) == s.PageGrants(k, principal);
  }

  lemma {:induction false} FlattenMembers<T>(pages: seq<seq<T>>, x: T)
    ensures x in Flatten(pages) <==> exists k | 0 <= k < |pages| :: x in pages[k]
    decreases |pages|
  {
    if |pages| > 0 {
      var n := |pages| - 1;
      FlattenMembers(pages[..n], x);
      assert forall k | 0 <= k < n :: pages[..n][k] == pages[k];
    }
  }

  lemma JobGrantsFlatten(pages: seq<seq<JobPermission>>, principal: string, g: Grant)
    ensures g in JobGrants(Flatten(pages), principal) <==>
            exists k | 0 <= k < |pages| :: g in JobGrants(pages[k], principal)
  {
    forall p: JobPermission ensures p in Flatten(pages) <==> exists k | 0 <= k < |pages| :: p in pages[k] {
      FlattenMembers(pages, p);
    }
  }

  lemma FutureGrantsFlatten(pages: seq<seq<FutureJobPermission>>, principal: string, g: Grant)
    ensures g in FutureGrants(Flatten(pages), principal) <==>
            exists k | 0 <= k < |pages| :: g in FutureGrants(pages[k], principal)
  {
    forall p: FutureJobPermission ensures p in Flatten(pages) <==> exists k | 0 <= k < |pages| :: p in pages[k] {
      FlattenMembers(pages, p);
    }
  }

  lemma ExpectedIsAllPages(s: Streams, principal: string)
    ensures Between(s, principal, 0, s.Length()) == Expected(s, principal)
  {
    forall g: Grant ensures g in Between(s, principal, 0, s.Length()) <==> g in Expected(s, principal) {
      BetweenMembers(s, principal, 0, s.Length(), g);
      JobGrantsFlatten(s.jobs.pages, principal, g);
      FutureGrantsFlatten(s.futures.pages, principal, g);
      assert forall k: nat | k < |s.jobs.pages| && g in JobGrants(s.jobs.pages[k], principal) :: g in s.PageGrants(k, principal);
      assert forall k: nat | k < |s.futures.pages| && g in FutureGrants(s.futures.pages[k], principal) :: g in s.PageGrants(k, principal);
    }
  }

  lemma RunFromStart(w: World, s: Streams, principal: string, run: seq<Attempt>)
    requires Answers(w, s) && IsRun(w, principal, "", run)
    ensures Follows(s, principal, 0, Accepted(run)) && Tracks(s, 0, run)
  {
    RunFollows(w, s, principal, 0, run);
    RunTracks(w, s, principal, 0, run);
  }

  lemma FollowsDelivers(s: Streams, principal: string, k: nat, accepted: seq<Result>)
    requires Follows(s, principal, k, accepted)
    ensures Delivered(accepted) == Between(s, principal, k, k + |accepted|)
  {
    FollowsGrants(s, principal, k, accepted);
    GrantsDelivered(PageByPage(s, principal), k, accepted);
  }

  lemma BrokenReach(s: Streams)
    requires |s.jobs.pages| >= 1 && |s.futures.pages| >= 1
    ensures 0 <= s.Reach() <= s.Length()
    ensures s.Reach() == s.Length() <==> !s.Broken()
  {
  }

  /** Main result, whole runs: from the empty token every run, under any faults and map orders, delivers
      page after page in order; it ends exactly after max(|J|, |F|) successful calls and has then
      granted exactly the roles of the two streams. It cannot end when a stream is broken, and it has
      ended once enough attempts met no fault when none is. */
  lemma WholeRun(w: World, s: Streams, principal: string, run: seq<Attempt>)
    requires Answers(w, s) && IsRun(w, principal, "", run)
    ensures CrashFree(run) && Follows(s, principal, 0, Accepted(run)) && |Accepted(run)| <= s.Reach()
    ensures Ended(run) <==> |Accepted(run)| == s.Length()
    ensures Ended(run) ==> Delivered(Accepted(run)) == Expected(s, principal)
    ensures s.Broken() ==> !Ended(run)
    ensures !s.Broken() && Clear(run) >= s.Length() ==> Ended(run)
  {
    RunFromStart(w, s, principal, run);
    BrokenReach(s);
    TracksEnding(s, 0, run);
    if !s.Broken() {
      TracksProgress(s, 0, run);
    }
    if Ended(run) {
      FollowsDelivers(s, principal, 0, Accepted(run));
      ExpectedIsAllPages(s, principal);
    }
  }

  lemma {:induction false} Enumerate(grants: set<Grant>) returns (xs: seq<Grant>)
    ensures Distinct(xs) && ToSet(xs) == grants
    decreases grants
  {
    xs := [];
    if g :| g in grants {
      var rest := Enumerate(grants - {g});
      xs := [g] + rest;
      assert g !in ToSet(rest);
      assert ToSet(xs) == {g} + ToSet(rest);
    }
  }

  lemma AttemptFor(call: Call) returns (a: Attempt)
    requires call.Granted?
    ensures a.faults == NO_FAULTS && a.result.status.Done? && a.result.nextToken == call.next && Returns(call, a.result)
  {
    var grants := Enumerate(call.grants);
    a := Attempt(NO_FAULTS, Result(grants, call.next, Done));
  }

  lemma ClearAttempt(w: World, s: Streams, principal: string, k: nat) returns (a: Attempt)
    requires Answers(w, s) && !s.Broken() && k < s.Length()
    ensures a.faults == NO_FAULTS && a.result.status.Done? && a.result.nextToken == s.StateToken(k + 1)
    ensures a.result.nextToken == "" <==> k + 1 == s.Length()
    ensures Returns(CallOf(w, principal, a.faults, s.StateToken(k)), a.result)
  {
    CallAt(w, s, k, principal, NO_FAULTS);
    assert !s.Hit(k, NO_FAULTS);
    ReachableTokens(w, s, k + 1);
    a := AttemptFor(CallOf(w, principal, NO_FAULTS, s.StateToken(k)));
  }

  /** A complete run exists from every state of readable streams: no attempt of it meets a fault. */
  lemma {:induction false} CompleteRun(w: World, s: Streams, principal: string, k: nat) returns (run: seq<Attempt>)
    requires Answers(w, s) && !s.Broken() && k < s.Length()
    ensures IsRun(w, principal, s.StateToken(k), run)
    ensures Clear(run) == |run| == s.Length() - k && Ended(run)
    decreases s.Length() - k
  {
    var first := ClearAttempt(w, s, principal, k);
    var rest: seq<Attempt> := [];
    if k + 1 < s.Length() {
      rest := CompleteRun(w, s, principal, k + 1);
    }
    run := [first] + rest;
    RunCons(w, principal, s.StateToken(k), first, rest);
    EndedCons(first, rest);
  }

  lemma RunCons(w: World, principal: string, token: string, first: Attempt, rest: seq<Attempt>)
    requires Returns(CallOf(w, principal, first.faults, token), first.result) && first.result.status.Done?
    requires if first.result.nextToken == "" then rest == [] else IsRun(w, principal, first.result.nextToken, rest)
    ensures IsRun(w, principal, token, [first] + rest)
  {
  }

  lemma EndedCons(first: Attempt, rest: seq<Attempt>)
    ensures Ended([first] + rest) <==>
            if rest == [] then first.result.status.Done? && first.result.nextToken == "" else Ended(rest)
    ensures Clear([first] + rest) == (if first.faults == NO_FAULTS then 1 else 0) + Clear(rest)
  {
  }

  /** Failure transparency: any two runs agree, result by result, on what is granted and on the token. */
  lemma RunsAgree(w: World, s: Streams, principal: string, run: seq<Attempt>, other: seq<Attempt>, i: nat)
    requires Answers(w, s) && IsRun(w, principal, "", run) && IsRun(w, principal, "", other)
    requires i < |Accepted(run)| && i < |Accepted(other)|
    ensures ToSet(Accepted(run)[i].grants) == ToSet(Accepted(other)[i].grants)
    ensures |Accepted(run)[i].grants| == |Accepted(other)[i].grants|
    ensures Accepted(run)[i].nextToken == Accepted(other)[i].nextToken
  {
    RunFromStart(w, s, principal, run);
    RunFromStart(w, s, principal, other);
    FollowsAgree(s, principal, Accepted(run), Accepted(other), i);
  }

  lemma FollowsAgree(s: Streams, principal: string, xs: seq<Result>, ys: seq<Result>, i: nat)
    requires Follows(s, principal, 0, xs) && Follows(s, principal, 0, ys) && i < |xs| && i < |ys|
    ensures ToSet(xs[i].grants) == ToSet(ys[i].grants) && |xs[i].grants| == |ys[i].grants|
    ensures xs[i].nextToken == ys[i].nextToken
  {
    ResultsAgree(s, principal, 0 + i, xs[i], ys[i]);
  }

  lemma ResultsAgree(s: Streams, principal: string, k: nat, x: Result, y: Result)
    requires NeverFailed(s, principal)(k, x) && NeverFailed(s, principal)(k, y)
    ensures ToSet(x.grants) == ToSet(y.grants) && |x.grants| == |y.grants| && x.nextToken == y.nextToken
  {
    DistinctCount(x.grants);
    DistinctCount(y.grants);
  }

  lemma {:induction false} DistinctCount<T(!new)>(xs: seq<T>)
    requires Distinct(xs)
    ensures |ToSet(xs)| == |xs|
    decreases |xs|
  {
    if |xs| > 0 {
      var n := |xs| - 1;
      DistinctCount(xs[..n]);
      assert xs == xs[..n] + [xs[n]];
      assert ToSet(xs) == ToSet(xs[..n]) + {xs[n]};
      assert xs[n] !in xs[..n];
    } else {
      assert ToSet(xs) == {};
    }
  }

  // ---- the requests of a run ----

  /** One user request, then one request for page `k` of each stream that has one. */
  function PageRequests(s: Streams, k: nat, principal: string): seq<Request> {
    [UserRequest(principal)] + StreamRequests(s, k)
  }

  function StreamRequests(s: Streams, k: nat): seq<Request> {
    (if k < |s.jobs.urls| then [JobRequest(s.jobs.urls[k])] else []) +
    (if k < |s.futures.urls| then [FutureRequest(s.futures.urls[k])] else [])
  }

  /** The requests that a call from state `k` gets to make: it stops after the first that fails, and a
      completed stream is not asked again. */
  function Requested(s: Streams, k: nat, principal: string, faults: Faults): seq<Request> {
    [UserRequest(principal)] +
    if faults.user then []
    else
      (if k < |s.jobs.urls| then [JobRequest(s.jobs.urls[k])] else []) +
      if k < |s.jobs.urls| && (faults.job || k >= s.jobs.Readable()) then []
      else if k < |s.futures.urls| then [FutureRequest(s.futures.urls[k])]
      else []
  }

  lemma RequestsAt(w: World, s: Streams, k: nat, principal: string, faults: Faults)
    requires Answers(w, s) && k < s.Length()
    ensures RequestsOf(w, principal, faults, s.StateToken(k)) == Requested(s, k, principal, faults)
    ensures !s.Hit(k, faults) ==> Requested(s, k, principal, faults) == PageRequests(s, k, principal)
  {
    ReachableTokens(w, s, k);
    RequestsOfDecoded(w, principal, faults, s.StateToken(k), s.PairAt(k));
    PermissionRequestsAt(w, s, k, faults);
  }

  lemma RequestsOfDecoded(w: World, principal: string, faults: Faults, token: string, t: TokenPair)
    requires w.user.Some? && !w.user.value.siteAdmin && Deserialize(token) == Some(t)
    ensures RequestsOf(w, principal, faults, token) ==
            [UserRequest(principal)] + if faults.user then [] else PermissionRequests(w, w.user.value.id, faults, t)
  {
  }

  lemma PermissionRequestsAt(w: World, s: Streams, k: nat, faults: Faults)
    requires Answers(w, s)
    ensures PermissionRequests(w, w.user.value.id, faults, s.PairAt(k)) ==
            (if k < |s.jobs.urls| then [JobRequest(s.jobs.urls[k])] else []) +
            if k < |s.jobs.urls| && (faults.job || k >= s.jobs.Readable()) then []
            else if k < |s.futures.urls| then [FutureRequest(s.futures.urls[k])]
            else []
  {
    AdvanceAt(w.jobs, JobsURL(w.base, w.user.value.id), s.jobs, k, faults.job);
    JobRequestsAt(w, s, k);
  }

  lemma JobRequestsAt(w: World, s: Streams, k: nat)
    requires Answers(w, s)
    ensures JobRequests(JobsURL(w.base, w.user.value.id), TokenAt(s.jobs, k)) ==
            if k < |s.jobs.urls| then [JobRequest(s.jobs.urls[k])] else []
    ensures FutureRequests(FutureJobsURL(w.base, w.user.value.id), TokenAt(s.futures, k)) ==
            if k < |s.futures.urls| then [FutureRequest(s.futures.urls[k])] else []
  {
  }

  ghost function RunRequests(w: World, principal: string, token: string, run: seq<Attempt>): seq<Request>
    decreases |run|
  {
    if |run| == 0 then []
    else
      RequestsOf(w, principal, run[0].faults, token) +
      RunRequests(w, principal, if run[0].result.status.Done? then run[0].result.nextToken else token, run[1..])
  }

  function AllRequests(s: Streams, k: nat, principal: string): seq<Request>
    decreases s.Length() - k
  {
    if k >= s.Length() then [] else PageRequests(s, k, principal) + AllRequests(s, k + 1, principal)
  }

  lemma {:induction false} AllRequestsCount(s: Streams, k: nat, principal: string)
    requires |s.jobs.urls| == |s.jobs.pages| && |s.futures.urls| == |s.futures.pages| && k <= s.Length()
    ensures |AllRequests(s, k, principal)| == s.Length() - k + s.Unread(k)
    decreases s.Length() - k
  {
    if k < s.Length() {
      AllRequestsCount(s, k + 1, principal);
    }
  }

  lemma {:induction false} RequestsFrom(w: World, s: Streams, principal: string, k: nat, run: seq<Attempt>)
    requires Answers(w, s) && k < s.Length() && IsRun(w, principal, s.StateToken(k), run)
    requires !s.Broken() && Clear(run) == |run| == s.Length() - k
    ensures RunRequests(w, principal, s.StateToken(k), run) == AllRequests(s, k, principal)
    decreases |run|
  {
    var token, next := s.StateToken(k), s.StateToken(k + 1);
    ClearHead(run);
    RunStep(w, principal, token, run);
    FaultlessAt(w, s, principal, k, run[0]);
    RunRequestsStep(w, principal, token, run, next, PageRequests(s, k, principal));
    if k + 1 < s.Length() {
      RequestsFrom(w, s, principal, k + 1, run[1..]);
    } else {
      assert RunRequests(w, principal, next, []) == [];
    }
  }

  /** An attempt without a fault moves on, with all requests of its page. */
  lemma FaultlessAt(w: World, s: Streams, principal: string, k: nat, a: Attempt)
    requires Answers(w, s) && !s.Broken() && k < s.Length() && a.faults == NO_FAULTS
    requires Returns(CallOf(w, principal, a.faults, s.StateToken(k)), a.result)
    ensures a.result.status.Done? && a.result.nextToken == s.StateToken(k + 1)
    ensures s.StateToken(k + 1) == "" <==> k + 1 == s.Length()
    ensures RequestsOf(w, principal, a.faults, s.StateToken(k)) == PageRequests(s, k, principal)
  {
    assert !s.Hit(k, NO_FAULTS);
    AttemptAt(w, s, principal, k, a);
    RequestsAt(w, s, k, principal, a.faults);
  }

  lemma RunRequestsStep(w: World, principal: string, token: string, run: seq<Attempt>, next: string, requests: seq<Request>)
    requires |run| > 0 && run[0].result.status.Done? && run[0].result.nextToken == next
    requires RequestsOf(w, principal, run[0].faults, token) == requests
    ensures RunRequests(w, principal, token, run) == requests + RunRequests(w, principal, next, run[1..])
  {
  }

  lemma ClearHead(run: seq<Attempt>)
    requires |run| > 0 && Clear(run) == |run|
    ensures run[0].faults == NO_FAULTS && Clear(run[1..]) == |run[1..]|
  {
    ClearBound(run[1..]);
  }

  lemma ClearBound(run: seq<Attempt>)
    ensures Clear(run) <= |run|
  {
  }

  /** Main result, cost: a complete run without faults asks for each page of each stream once, in order,
      in max(|J|, |F|) + |J| + |F| requests. */
  lemma {:induction false} RequestCost(w: World, s: Streams, principal: string, run: seq<Attempt>)
    requires Answers(w, s) && IsRun(w, principal, "", run)
    requires !s.Broken() && Clear(run) == |run| && Ended(run)
    ensures RunRequests(w, principal, "", run) == AllRequests(s, 0, principal)
    ensures |RunRequests(w, principal, "", run)| == s.Length() + |s.jobs.pages| + |s.futures.pages|
  {
    RunTracks(w, s, principal, 0, run);
    TracksEnding(s, 0, run);
    TracksProgress(s, 0, run);
    AcceptedBound(run);
    AllRequestsCount(s, 0, principal);
    RequestsFrom(w, s, principal, 0, run);
  }

  lemma AcceptedBound(run: seq<Attempt>)
    ensures |Accepted(run)| <= |run|
  {
  }

  // ---- the Site Admin, and the listed roles ----

  /** A failed first attempt adds nothing to a run. */
  lemma FailedFirst(run: seq<Attempt>)
    requires |run| > 0 && run[0].result.status.Failed?
    ensures Accepted(run) == Accepted(run[1..])
    ensures Ended(run) <==> Ended(run[1..])
    ensures CrashFree(run) <==> CrashFree(run[1..])
  {
    assert run == [run[0]] + run[1..];
  }

  lemma SiteAdminAttempt(w: World, principal: string, token: string, a: Attempt)
    requires w.user.Some? && w.user.value.siteAdmin && Deserialize(token).Some?
    requires Returns(CallOf(w, principal, a.faults, token), a.result)
    ensures if a.faults.user then a.result.status.Failed?
            else a.result.status.Done? && a.result.nextToken == "" && ToSet(a.result.grants) == {Grant(SITE_ADMIN, principal)}
    ensures RequestsOf(w, principal, a.faults, token) == [UserRequest(principal)]
  {
  }

  /** A Site Admin's run from any readable token: the one grant, at the first attempt whose user request
      succeeds. */
  lemma {:induction false} SiteAdminRun(w: World, principal: string, token: string, run: seq<Attempt>)
    requires w.user.Some? && w.user.value.siteAdmin && Deserialize(token).Some? && IsRun(w, principal, token, run)
    ensures CrashFree(run) && (Ended(run) <==> exists a | a in run :: !a.faults.user)
    ensures Delivered(Accepted(run)) == if Ended(run) then {Grant("site_admin", principal)} else {}
    decreases |run|
  {
    if |run| > 0 {
      RunStep(w, principal, token, run);
      SiteAdminAttempt(w, principal, token, run[0]);
      var rest := run[1..];
      assert run == [run[0]] + rest;
      if run[0].faults.user {
        SiteAdminRun(w, principal, token, rest);
        FailedFirst(run);
      } else {
        assert rest == [] && Accepted(run) == [run[0].result];
        assert Delivered(Accepted(run)) == ToSet(run[0].result.grants) + Delivered([]);
        assert run[0] in run;
      }
    }
  }

  /** It makes no permission request at all. */
  lemma {:induction false} SiteAdminRequests(w: World, principal: string, token: string, run: seq<Attempt>)
    requires w.user.Some? && w.user.value.siteAdmin && Deserialize(token).Some? && IsRun(w, principal, token, run)
    ensures RunRequests(w, principal, token, run) == UserRequests(principal, |run|)
    decreases |run|
  {
    if |run| > 0 {
      RunStep(w, principal, token, run);
      SiteAdminAttempt(w, principal, token, run[0]);
      UserRequestsStep(principal, |run|);
      if run[0].faults.user {
        SiteAdminRequests(w, principal, token, run[1..]);
      } else {
        assert run[1..] == [];
      }
    }
  }

  function UserRequests(principal: string, n: nat): seq<Request> { seq(n, _ => UserRequest(principal)) }

  lemma UserRequestsStep(principal: string, n: nat)
    requires n > 0
    ensures UserRequests(principal, n) == [UserRequest(principal)] + UserRequests(principal, n - 1)
  {
  }

  // ---- runs that cannot succeed ----

  predicate AllFailed(run: seq<Attempt>) { forall a | a in run :: a.result == Result([], "", Failed) }

  lemma {:induction false} FailedRun(run: seq<Attempt>)
    requires AllFailed(run)
    ensures Accepted(run) == [] && !Ended(run) && CrashFree(run)
    decreases |run|
  {
    if |run| > 0 {
      assert run[0] in run;
      FailedRun(run[1..]);
      FailedFirst(run);
    }
  }

  lemma {:induction false} StuckAttempts(w: World, principal: string, token: string, run: seq<Attempt>)
    requires w.user.None? || Deserialize(token).None?
    requires IsRun(w, principal, token, run)
    ensures AllFailed(run)
    decreases |run|
  {
    if |run| > 0 {
      RunHead(w, principal, token, run);
      StuckAttempt(w, principal, token, run[0]);
      StuckAttempts(w, principal, token, run[1..]);
      assert run == [run[0]] + run[1..];
    }
  }

  /** Main result, refusals: while the API refuses the user request, and from a token that cannot be read, every
      attempt fails with nothing granted, so that no run ends. */
  lemma StuckRun(w: World, principal: string, token: string, run: seq<Attempt>)
    requires w.user.None? || Deserialize(token).None?
    requires IsRun(w, principal, token, run)
    ensures AllFailed(run)
    ensures Accepted(run) == [] && !Ended(run) && CrashFree(run)
  {
    StuckAttempts(w, principal, token, run);
    FailedRun(run);
  }

  /** Only the user is asked for, or nothing. */
  lemma {:induction false} StuckRequests(w: World, principal: string, token: string, run: seq<Attempt>)
    requires w.user.None? || Deserialize(token).None?
    requires IsRun(w, principal, token, run)
    ensures RunRequests(w, principal, token, run) == if Deserialize(token).None? then [] else UserRequests(principal, |run|)
    decreases |run|
  {
    if |run| > 0 {
      RunHead(w, principal, token, run);
      StuckAttempt(w, principal, token, run[0]);
      StuckRequests(w, principal, token, run[1..]);
      UserRequestsStep(principal, |run|);
    }
  }

  lemma StuckAttempt(w: World, principal: string, token: string, a: Attempt)
    requires w.user.None? || Deserialize(token).None?
    requires Returns(CallOf(w, principal, a.faults, token), a.result)
    ensures a.result == Result([], "", Failed)
    ensures RequestsOf(w, principal, a.faults, token) == if Deserialize(token).None? then [] else [UserRequest(principal)]
  {
  }

  /** The first job page has a header that the Link parser panics on. */
  ghost predicate JobsPanic(w: World) {
    && w.user.Some? && !w.user.value.siteAdmin
    && HeaderReads(w.jobs, JobsURL(w.base, w.user.value.id), LinkHeader.Panicked)
  }

  /** The first job page can be read, and the first future-job page has such a header. */
  ghost predicate FuturesPanic(w: World) {
    && w.user.Some? && !w.user.value.siteAdmin
    && HeaderReads(w.jobs, JobsURL(w.base, w.user.value.id), LinkHeader.Accepted)
    && HeaderReads(w.futures, FutureJobsURL(w.base, w.user.value.id), LinkHeader.Panicked)
  }

  /** The attempt gets to the header that the parser panics on. */
  ghost predicate GetsToPanic(w: World, a: Attempt) {
    !a.faults.user && !a.faults.job && (FuturesPanic(w) ==> !a.faults.future)
  }

  /** Such a run crashes at the first attempt that gets to the header, with nothing granted, and never ends. */
  lemma {:induction false} CrashingRun(w: World, principal: string, run: seq<Attempt>)
    requires (JobsPanic(w) || FuturesPanic(w)) && IsRun(w, principal, "", run)
    ensures Accepted(run) == [] && !Ended(run)
    ensures CrashFree(run) <==> forall a | a in run :: !GetsToPanic(w, a)
    decreases |run|
  {
    if |run| > 0 {
      RunHead(w, principal, "", run);
      CrashingAttempt(w, principal, run[0]);
      assert run == [run[0]] + run[1..];
      if run[0].result.status.Failed? {
        CrashingRun(w, principal, run[1..]);
        FailedFirst(run);
      } else {
        CrashedFirst(run);
      }
    }
  }

  lemma CrashedFirst(run: seq<Attempt>)
    requires |run| > 0 && run[0].result.status.Crashed? && run[1..] == []
    ensures Accepted(run) == [] && !Ended(run) && !CrashFree(run)
  {
    assert run[0] in run;
  }

  lemma RunHead(w: World, principal: string, token: string, run: seq<Attempt>)
    requires |run| > 0 && IsRun(w, principal, token, run)
    ensures Returns(CallOf(w, principal, run[0].faults, token), run[0].result)
    ensures run[0].result.status.Failed? ==> IsRun(w, principal, token, run[1..])
    ensures run[0].result.status.Crashed? ==> run[1..] == []
  {
  }

  lemma CrashingAttempt(w: World, principal: string, a: Attempt)
    requires JobsPanic(w) || FuturesPanic(w)
    requires Returns(CallOf(w, principal, a.faults, ""), a.result)
    ensures a.result.grants == [] && !a.result.status.Done?
    ensures a.result.status.Crashed? <==> GetsToPanic(w, a)
  {
  }

  /** Main result, references: a complete run grants only listed role resources exactly when every role
      ID of its streams is that of a listed job_admin role. */
  lemma GrantsListedExactly(w: World, s: Streams, principal: string, run: seq<Attempt>, rolePages: seq<seq<UserRole>>)
    requires Answers(w, s) && IsRun(w, principal, "", run) && Ended(run)
    ensures (forall g | g in Delivered(Accepted(run)) :: g.resource in Listed(rolePages)) <==>
            JobRoleIDs(Flatten(s.jobs.pages)) + FutureRoleIDs(Flatten(s.futures.pages)) <= AdminIDs(Flatten(rolePages))
  {
    WholeRun(w, s, principal, run);
    var jobs, futures := Flatten(s.jobs.pages), Flatten(s.futures.pages);
    forall p | p in jobs
      ensures Grant(JobRoleResource(p.userRoleID), principal) in Expected(s, principal)
      ensures JobRoleResource(p.userRoleID) in Listed(rolePages) <==> p.userRoleID in AdminIDs(Flatten(rolePages))
    {
      ListedExactly(rolePages, p.userRoleID);
    }
    forall p | p in futures
      ensures Grant(FutureRoleResource(p.userRoleID), principal) in Expected(s, principal)
      ensures FutureRoleResource(p.userRoleID) in Listed(rolePages) <==> p.userRoleID in AdminIDs(Flatten(rolePages))
    {
      ListedExactly(rolePages, p.userRoleID);
    }
  }

  /** The same for the roles of a listing: the grants of a complete run meet the resources of a finished
      listing exactly when every role ID of the streams is that of a job_admin role the API serves. */
  lemma GrantsMeetListing(w: World, s: Streams, principal: string, run: seq<Attempt>,
                          api: string -> Response<UserRole>, first: string, roles: Stream<UserRole>, faults: seq<bool>)
    requires Answers(w, s) && IsRun(w, principal, "", run) && Ended(run)
    requires Serves(api, first, roles) && ListRun(api, first, "", faults).1 == Finished
    ensures (forall g | g in Delivered(Accepted(run)) :: g.resource in ListRun(api, first, "", faults).0) <==>
            JobRoleIDs(Flatten(s.jobs.pages)) + FutureRoleIDs(Flatten(s.futures.pages)) <= AdminIDs(Flatten(roles.pages))
  {
    ListRunServed(api, first, roles, faults);
    GrantsListedExactly(w, s, principal, run, roles.pages);
  }

  /** What a complete run grants, in texts: the decimal texts of exactly the role IDs of the two streams. */
  lemma GrantedTexts(w: World, s: Streams, principal: string, run: seq<Attempt>)
    requires Answers(w, s) && IsRun(w, principal, "", run) && Ended(run)
    ensures exists jobs, futures ::
              && Delivered(Accepted(run)) == jobs + futures
              && NameJobRoles(jobs, Flatten(s.jobs.pages), principal)
              && NameFutureRoles(futures, Flatten(s.futures.pages), principal)
  {
    WholeRun(w, s, principal, run);
    GrantTexts(Flatten(s.jobs.pages), Flatten(s.futures.pages), principal);
    var jobs, futures := JobGrants(Flatten(s.jobs.pages), principal), FutureGrants(Flatten(s.futures.pages), principal);
    assert Delivered(Accepted(run)) == jobs + futures;
  }
}
