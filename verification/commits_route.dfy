/** The handler of `GET /api/commits` (src/app/api/commits/route.ts): it reads
    and checks the query, resolves the date range and the repositories, fetches
    every repository's commits through a bounded worker pool, keeps going past
    per-repository failures when all projects are shown, merges and sorts the
    commits newest first, cuts out one page of 50, and rolls the whole list up
    into per-day summaries.

    The handler's environment is a `Runtime` value: the token variables, the
    upstream API, the current instant, and three JavaScript built-ins the model
    does not open up (`Number(text)`, `new Date(iso).getTime()` and the
    `/rate limit/i` test). */
module CommitsRoute {
  import opened Wrappers
  import opened Text
  import opened Calendar
  import opened Types
  import opened DateRange
  import opened RepoAllowlist
  import opened GitHub
  import opened WorkerPool
  import opened StableSort
  import opened DayTally

  const FEED_LIMIT: int := 50

  /** The widest timezone offset accepted, in minutes (UTC+14 / UTC-14). */
  const MAX_TZ_MINUTES: real := 840.0

  const BOTH_FORMS_MESSAGE: string := "Use either `range` or (`since` and `until`), not both."
  const BAD_RANGE_MESSAGE: string := "Invalid `range`. Must be 7, 30, 60, or 365."
  const MISSING_BOUND_MESSAGE: string := "When using custom dates, provide both `since` and `until`."
  const BAD_REPO_MESSAGE: string := "Invalid `repo`. Must be `all` or an allowlisted owner/repo."
  const RATE_LIMIT_MESSAGE: string := "GitHub API rate limit reached. Try again shortly."
  const AUTH_MESSAGE: string := "GitHub API authentication failed. Try again later."

  /** What `Number(text)` gives: a finite value, or NaN or an infinity. */
  datatype JsNumber = Finite(value: real) | NonFinite

  /** The query parameters as `searchParams.get` returns them (`None` for a
      parameter that is absent). */
  datatype Query = Query(
    repo: Option<string>,
    range: Option<string>,
    since: Option<string>,
    until: Option<string>,
    tz: Option<string>,
    page: Option<string>)

  datatype Runtime = Runtime(
    env: Env,
    upstream: PageRequest -> PageResponse,
    nowMs: int,
    toNumber: string -> JsNumber,
    instantOf: string -> int,
    isRateLimit: string -> bool)

  // ---------------------------------------------------------------------
  // Reading the query

  /** `searchParams.get(name)?.trim()`. */
  function TrimParam(p: Option<string>): (r: Option<string>)
    ensures r.Some? <==> p.Some?
    ensures r.Some? ==> r.value == Trim(p.value)
  {
    match p
    case None => None
    case Some(s) => Some(Trim(s))
  }

  /** A parameter that is present and not empty (JavaScript truthiness). */
  predicate Given(p: Option<string>) {
    p.Some? && p.value != ""
  }

  /** The repository parameter, `all` when absent. */
  function RepoParam(q: Query): string {
    Trim(q.repo.GetOr("all"))
  }

  /** The timezone offset in minutes: the number given, clamped to
      [-840, 840]; 0 when absent, empty or not a finite number. */
  function CoerceTz(q: Query, toNumber: string -> JsNumber): (tz: real)
    ensures -MAX_TZ_MINUTES <= tz <= MAX_TZ_MINUTES
    ensures !Given(TrimParam(q.tz)) ==> tz == 0.0
    ensures Given(TrimParam(q.tz)) ==>
      var n := toNumber(TrimParam(q.tz).value);
      && (n.NonFinite? ==> tz == 0.0)
      && (n.Finite? && -MAX_TZ_MINUTES <= n.value <= MAX_TZ_MINUTES ==> tz == n.value)
      && (n.Finite? && n.value > MAX_TZ_MINUTES ==> tz == MAX_TZ_MINUTES)
      && (n.Finite? && n.value < -MAX_TZ_MINUTES ==> tz == -MAX_TZ_MINUTES)
  {
    var tzParam := TrimParam(q.tz);
    var tzValue := if Given(tzParam) then toNumber(tzParam.value) else Finite(0.0);
    match tzValue
    case NonFinite => 0.0
    case Finite(v) =>
      var upper := if v < MAX_TZ_MINUTES then v else MAX_TZ_MINUTES;
      if -MAX_TZ_MINUTES > upper then -MAX_TZ_MINUTES else upper
  }

  /** The requested page: the whole part of a finite positive number, else 1.
      A number strictly between 0 and 1 gives page 0. */
  function CoercePage(q: Query, toNumber: string -> JsNumber): (page: int)
    ensures page >= 0
    ensures !Given(TrimParam(q.page)) ==> page == 1
    ensures Given(TrimParam(q.page)) ==>
      var n := toNumber(TrimParam(q.page).value);
      && (n.Finite? && n.value > 0.0 ==> page as real <= n.value < page as real + 1.0)
      && (!(n.Finite? && n.value > 0.0) ==> page == 1)
    ensures page == 0 <==>
      Given(TrimParam(q.page)) && toNumber(TrimParam(q.page).value).Finite?
      && 0.0 < toNumber(TrimParam(q.page).value).value < 1.0
  {
    var pageParam := TrimParam(q.page);
    var pageValue := if Given(pageParam) then toNumber(pageParam.value) else Finite(1.0);
    if pageValue.Finite? && pageValue.value > 0.0 then pageValue.value.Floor else 1
  }

  /** The preset a `range` number names, if it names one. */
  function PresetOf(n: JsNumber): (r: Option<RangePresetDays>)
    ensures r.Some? <==> n.Finite? && exists d :: d in RANGE_PRESET_DAYS && n.value == d as real
    ensures r.Some? ==> n.value == r.value as real
  {
    if n.Finite? && n.value == n.value.Floor as real && n.value.Floor in RANGE_PRESET_DAYS then Some(n.value.Floor)
    else None
  }

  /** The date range the query asks for, or the 400 message. */
  function ResolveRange(q: Query, toNumber: string -> JsNumber, nowMs: int): (r: Result<DateRangeResult, string>)
    ensures r.Success? ==> r.value.Ok?
  {
    var rangeParam, sinceParam, untilParam := TrimParam(q.range), TrimParam(q.since), TrimParam(q.until);
    if Given(rangeParam) && (Given(sinceParam) || Given(untilParam)) then Failure(BOTH_FORMS_MESSAGE)
    else
      var result :=
        if Given(rangeParam) then
          match PresetOf(toNumber(rangeParam.value))
          case None => Failure(BAD_RANGE_MESSAGE)
          case Some(days) => Success(BuildDateRangeFromPreset(days, nowMs))
        else if Given(sinceParam) || Given(untilParam) then
          if !Given(sinceParam) || !Given(untilParam) then Failure(MISSING_BOUND_MESSAGE)
          else Success(BuildDateRangeFromYmd(sinceParam.value, untilParam.value, MAX_RANGE_DAYS))
        else Success(BuildDateRangeFromPreset(DEFAULT_RANGE_DAYS, nowMs));
      match result
      case Failure(m) => Failure(m)
      case Success(range) => if range.Err? then Failure(range.error.Message()) else Success(range)
  }

  /** A checked request: its date range, the repositories to read, and whether
      all projects were asked for. */
  datatype Selection = Selection(range: DateRangeResult, repos: seq<string>, isAll: bool)

  /** The checks in the order the handler makes them: the date parameters
      first, then the repository. */
  function Validate(q: Query, toNumber: string -> JsNumber, nowMs: int): (r: Result<Selection, string>)
    ensures r.Success? ==> r.value.range.Ok? && |r.value.repos| >= 1
  {
    match ResolveRange(q, toNumber, nowMs)
    case Failure(m) => Failure(m)
    case Success(range) =>
      var repoParam := RepoParam(q);
      if repoParam == "all" then Success(Selection(range, REPO_ALLOWLIST, true))
      else if IsAllowedRepo(repoParam) then Success(Selection(range, [repoParam], false))
      else Failure(BAD_REPO_MESSAGE)
  }

  /** The 400 rules. Mixing `range` with `since`/`until` is refused first; a
      `range` must be a preset; custom dates need both bounds; no date
      parameter at all means the 365-day preset; a date error comes before a
      repository error; the repository must be `all` or allowlisted. */
  lemma ValidateRules(q: Query, toNumber: string -> JsNumber, nowMs: int)
    ensures var r := Validate(q, toNumber, nowMs);
      var rangeParam, sinceParam, untilParam := TrimParam(q.range), TrimParam(q.since), TrimParam(q.until);
      && (Given(rangeParam) && (Given(sinceParam) || Given(untilParam)) ==> r == Failure(BOTH_FORMS_MESSAGE))
      && (Given(rangeParam) && !Given(sinceParam) && !Given(untilParam) ==>
            (PresetOf(toNumber(rangeParam.value)).None? <==> r == Failure(BAD_RANGE_MESSAGE))
            && (r.Success? ==> r.value.range == BuildDateRangeFromPreset(PresetOf(toNumber(rangeParam.value)).value, nowMs)))
      && (!Given(rangeParam) && (Given(sinceParam) != Given(untilParam)) ==> r == Failure(MISSING_BOUND_MESSAGE))
      && (!Given(rangeParam) && Given(sinceParam) && Given(untilParam) ==>
            var built := BuildDateRangeFromYmd(sinceParam.value, untilParam.value, MAX_RANGE_DAYS);
            && (built.Err? ==> r == Failure(built.error.Message()))
            && (r.Success? ==> r.value.range == built))
      && (!Given(rangeParam) && !Given(sinceParam) && !Given(untilParam) && r.Success? ==>
            r.value.range == BuildDateRangeFromPreset(365, nowMs))
      && (ResolveRange(q, toNumber, nowMs).Success? ==>
            (r == Failure(BAD_REPO_MESSAGE) <==> RepoParam(q) != "all" && !IsAllowedRepo(RepoParam(q))))
      && (r.Success? ==>
            && (r.value.isAll <==> RepoParam(q) == "all")
            && (r.value.isAll ==> r.value.repos == REPO_ALLOWLIST)
            && (!r.value.isAll ==> r.value.repos == [RepoParam(q)] && IsAllowedRepo(RepoParam(q))))
  {
    PresetConstants();
    var rangeParam := TrimParam(q.range);
    if Given(rangeParam) && PresetOf(toNumber(rangeParam.value)).Some? {
      var built := BuildDateRangeFromPreset(PresetOf(toNumber(rangeParam.value)).value, nowMs);
      assert built.Ok?;
    }
  }

  // ---------------------------------------------------------------------
  // Budgets

  /** How hard the handler may lean on the upstream API. */
  datatype Budget = Budget(revalidateSeconds: int, concurrency: int, maxPages: int)

  /** The budget table: tokens buy fresher data, more workers for `all`, and
      more pages for longer ranges. */
  function BudgetFor(hasToken: bool, isAll: bool, rangeDays: int): (b: Budget)
    ensures b.revalidateSeconds == (if hasToken then 60 else 900)
    ensures b.concurrency == (if !isAll then 1 else if hasToken then 4 else 2)
    ensures hasToken ==> b.maxPages == (if rangeDays >= 365 then 8 else if rangeDays >= 180 then 6 else if rangeDays >= 90 then 4 else 3)
    ensures !hasToken ==> b.maxPages == (if isAll then 1 else 2)
  {
    var revalidateSeconds := if hasToken then 60 else 900;
    var concurrency := if isAll then (if hasToken then 4 else 2) else 1;
    var maxPages :=
      if hasToken then
        if rangeDays >= MAX_RANGE_DAYS then 8
        else if rangeDays >= 180 then 6
        else if rangeDays >= 90 then 4
        else 3
      else if isAll then 1
      else 2;
    Budget(revalidateSeconds, concurrency, maxPages)
  }

  /** Every budget has at least one worker and one page, at most four workers
      and eight pages; with a token, a longer range never gets fewer pages,
      and a token never gets fewer pages than no token. */
  lemma BudgetBounds(hasToken: bool, isAll: bool, rangeDays: int, longerDays: int)
    requires rangeDays <= longerDays
    ensures var b := BudgetFor(hasToken, isAll, rangeDays);
      && 1 <= b.concurrency <= 4 && 1 <= b.maxPages <= 8
      && (hasToken ==> b.maxPages <= BudgetFor(hasToken, isAll, longerDays).maxPages)
      && BudgetFor(false, isAll, rangeDays).maxPages <= BudgetFor(true, isAll, rangeDays).maxPages
  {
    PresetConstants();
  }

  // ---------------------------------------------------------------------
  // Fetching one repository

  /** A repository that could not be read while all projects were shown. */
  datatype RepoFailure = RepoFailure(repo: string, status: Option<int>, message: string)

  /** What one repository contributes: its commits (none when it failed) and
      the failure recorded for it, if any. */
  datatype RepoOutcome = RepoOutcome(list: CommitListResult, failure: Option<RepoFailure>)

  /** Errors that end the whole request: every error for a single repository;
      for all projects, a 401 and a 403 whose message mentions the rate limit. */
  predicate IsFatal(e: FetchError, isAll: bool, isRateLimit: string -> bool) {
    !isAll || (e.ApiError? && (e.status == 401 || (e.status == 403 && isRateLimit(e.message))))
  }

  /** The token the handler hands to every fetch. */
  function HandlerToken(rt: Runtime): Option<string> {
    ReadGitHubTokenFromEnv(rt.env)
  }

  /** `Boolean(token)`. */
  predicate HasToken(rt: Runtime) {
    HandlerToken(rt).Some? && HandlerToken(rt).value != ""
  }

  /** The options each repository is listed with: the validated window,
      100 per page, the budget's page cap and revalidation period, and the
      handler's token, so the request is authorised exactly when the handler
      has a non-empty token. */
  function OptionsFor(rt: Runtime, sel: Selection, budget: Budget, repo: string): (o: ListOptions)
    requires sel.range.Ok?
    ensures o.repo == repo && PerPage(o) == 100 && MaxPages(o) == budget.maxPages
    ensures o.sinceMs == sel.range.sinceMs && o.untilMs == sel.range.untilMs
    ensures RevalidateSeconds(o) == budget.revalidateSeconds
    ensures o.token == HandlerToken(rt)
    ensures Authorization(o, rt.env).Some? <==> HasToken(rt)
  {
    ListOptions(repo, sel.range.sinceMs, sel.range.untilMs, Some(100), Some(budget.maxPages),
                Some(budget.revalidateSeconds), HandlerToken(rt))
  }

  /** The pool's task for one repository: its listing, or, when the error is
      not fatal, no commits and a recorded failure. */
  function FetchRepo(rt: Runtime, sel: Selection, budget: Budget, repo: string): (r: Result<RepoOutcome, FetchError>)
    requires sel.range.Ok?
  {
    match ListCommits(OptionsFor(rt, sel, budget, repo), rt.env, rt.upstream).result
    case Success(list) => Success(RepoOutcome(list, None))
    case Failure(e) =>
      if IsFatal(e, sel.isAll, rt.isRateLimit) then Failure(e)
      else
        var status := if e.ApiError? then Some(e.status) else None;
        Success(RepoOutcome(CommitListResult([], false), Some(RepoFailure(repo, status, e.message))))
  }

  /** The failure policy: a listing that succeeds is passed on; a failed one
      ends the request exactly when its error is fatal; otherwise the
      repository contributes nothing, not truncated, and its failure is
      recorded with the status of an API error. */
  lemma FetchRepoPolicy(rt: Runtime, sel: Selection, budget: Budget, repo: string)
    requires sel.range.Ok?
    ensures var listed := ListCommits(OptionsFor(rt, sel, budget, repo), rt.env, rt.upstream).result;
      var r := FetchRepo(rt, sel, budget, repo);
      && (listed.Success? ==> r == Success(RepoOutcome(listed.value, None)))
      && (r.Failure? <==> listed.Failure? && IsFatal(listed.error, sel.isAll, rt.isRateLimit))
      && (r.Failure? ==> r.error == listed.error)
      && (!sel.isAll ==> r.Success? == listed.Success?)
      && (r.Success? && r.value.failure.Some? ==>
            && listed.Failure? && sel.isAll
            && r.value.list == CommitListResult([], false)
            && r.value.failure.value.repo == repo
            && r.value.failure.value.message == listed.error.message
            && (r.value.failure.value.status.Some? <==> listed.error.ApiError?))
  {
  }

  /** The task as a function value, the same for the handler and its model. */
  function FetchTask(rt: Runtime, sel: Selection, budget: Budget): string -> Result<RepoOutcome, FetchError>
    requires sel.range.Ok?
  {
    repo => FetchRepo(rt, sel, budget, repo)
  }

  // ---------------------------------------------------------------------
  // Merging

  /** `perRepo.flatMap(entry => entry.commits)`. */
  function Flatten(outcomes: seq<RepoOutcome>): seq<CommitItem>
    decreases |outcomes|
  {
    if outcomes == [] then []
    else Flatten(outcomes[..|outcomes| - 1]) + outcomes[|outcomes| - 1].list.commits
  }

  /** `perRepo.some(entry => entry.truncated)`. */
  predicate AnyTruncated(outcomes: seq<RepoOutcome>) {
    exists i :: 0 <= i < |outcomes| && outcomes[i].list.truncated
  }

  /** The recorded failures, in repository order. */
  function Failures(outcomes: seq<RepoOutcome>): seq<RepoFailure>
    decreases |outcomes|
  {
    if outcomes == [] then []
    else
      var last := outcomes[|outcomes| - 1];
      Failures(outcomes[..|outcomes| - 1]) + (if last.failure.Some? then [last.failure.value] else [])
  }

  /** The sort key: a commit's instant. */
  function InstantKey(instantOf: string -> int): CommitItem -> int {
    (c: CommitItem) => instantOf(c.committedAt)
  }

  /** The merged list: every repository's commits, newest first. */
  function Merge(outcomes: seq<RepoOutcome>, instantOf: string -> int): seq<CommitItem> {
    SortByKeyDesc(Flatten(outcomes), InstantKey(instantOf))
  }

  /** The merged list is newest first, holds exactly the repositories'
      commits, and keeps commits with the same instant in repository order. */
  lemma MergeFacts(outcomes: seq<RepoOutcome>, instantOf: string -> int)
    ensures var merged := Merge(outcomes, instantOf);
      && (forall i, j :: 0 <= i < j < |merged| ==> instantOf(merged[i].committedAt) >= instantOf(merged[j].committedAt))
      && multiset(merged) == multiset(Flatten(outcomes))
      && |merged| == |Flatten(outcomes)|
      && forall t :: WithKey(merged, InstantKey(instantOf), t) == WithKey(Flatten(outcomes), InstantKey(instantOf), t)
  {
    var key := InstantKey(instantOf);
    SortByKeyDescSorted(Flatten(outcomes), key);
    SortByKeyDescPermutes(Flatten(outcomes), key);
    SortByKeyDescStable(Flatten(outcomes), key);
    SortByKeyDescLength(Flatten(outcomes), key);
    var merged := Merge(outcomes, instantOf);
    forall i, j | 0 <= i < j < |merged| ensures instantOf(merged[i].committedAt) >= instantOf(merged[j].committedAt) {
      assert key(merged[i]) >= key(merged[j]);
    }
  }

  /** The merged count is the sum of the repositories' counts. */
  lemma {:induction false} FlattenLength(outcomes: seq<RepoOutcome>)
    ensures |Flatten(outcomes)| == CommitCount(outcomes)
    decreases |outcomes|
  {
    if outcomes != [] {
      FlattenLength(outcomes[..|outcomes| - 1]);
    }
  }

  function CommitCount(outcomes: seq<RepoOutcome>): nat
    decreases |outcomes|
  {
    if outcomes == [] then 0
    else CommitCount(outcomes[..|outcomes| - 1]) + |outcomes[|outcomes| - 1].list.commits|
  }

  // ---------------------------------------------------------------------
  // Pages of the feed

  /** `Math.max(1, Math.ceil(n / 50))`. */
  function TotalPages(n: nat): (t: int)
    ensures t >= 1
    ensures n == 0 ==> t == 1
    ensures n > 0 ==> (t - 1) * FEED_LIMIT < n <= t * FEED_LIMIT
  {
    if n == 0 then 1 else (n + FEED_LIMIT - 1) / FEED_LIMIT
  }

  /** `s.slice(start, end)`: negative positions count from the end, and
      positions are clamped to the list. */
  function JsSlice<T>(s: seq<T>, start: int, end: int): (r: seq<T>)
    ensures |r| <= |s|
    ensures 0 <= start <= end <= |s| ==> r == s[start..end]
    ensures 0 <= start <= |s| <= end ==> r == s[start..]
    ensures 0 <= end <= start ==> r == []
  {
    var from := if start < 0 then (if |s| + start < 0 then 0 else |s| + start) else (if start < |s| then start else |s|);
    var to := if end < 0 then (if |s| + end < 0 then 0 else |s| + end) else (if end < |s| then end else |s|);
    if from < to then s[from..to] else []
  }

  /** A negative position counts back from the end of the list, and one
      further back than the start counts from the start. */
  lemma JsSliceFromEnd<T>(s: seq<T>, start: int, end: int)
    ensures start < 0 ==> JsSlice(s, start, end) == JsSlice(s, if |s| + start < 0 then 0 else |s| + start, end)
    ensures end < 0 ==> JsSlice(s, start, end) == JsSlice(s, start, if |s| + end < 0 then 0 else |s| + end)
  {
  }

  /** `Math.min(page, totalPages)`: clamps from above only. */
  function SafePage(page: int, n: nat): int {
    if page < TotalPages(n) then page else TotalPages(n)
  }

  /** The commits shown on `page`. */
  function PageOf<T>(s: seq<T>, page: int): seq<T> {
    var start := (SafePage(page, |s|) - 1) * FEED_LIMIT;
    JsSlice(s, start, start + FEED_LIMIT)
  }

  /** For a page of at least 1, the page shown lies between 1 and the last
      page and holds the 50 commits (fewer on the last page) that start at
      its offset; so every commit is on exactly one page. */
  lemma PageOfFacts<T>(s: seq<T>, page: int)
    requires page >= 1
    ensures var safe := SafePage(page, |s|);
      && 1 <= safe <= TotalPages(|s|)
      && (page <= TotalPages(|s|) ==> safe == page)
      && (safe - 1) * FEED_LIMIT <= |s|
      && PageOf(s, page) == s[(safe - 1) * FEED_LIMIT .. if safe * FEED_LIMIT < |s| then safe * FEED_LIMIT else |s|]
      && (safe < TotalPages(|s|) ==> |PageOf(s, page)| == FEED_LIMIT)
  {
    var safe := SafePage(page, |s|);
    if |s| > 0 {
      ScaleMonotone(safe - 1, TotalPages(|s|) - 1, FEED_LIMIT);
      if safe < TotalPages(|s|) {
        ScaleMonotone(safe, TotalPages(|s|) - 1, FEED_LIMIT);
      }
    }
  }

  /** Page 0 (from a page number between 0 and 1) shows nothing. */
  lemma PageZeroIsEmpty<T>(s: seq<T>)
    ensures PageOf(s, 0) == []
  {
  }

  /** 130 commits make three pages of 50, 50 and 30; page 10 shows page 3. */
  lemma PagesOf130<T>(s: seq<T>)
    requires |s| == 130
    ensures TotalPages(|s|) == 3
    ensures PageOf(s, 1) == s[0..50] && PageOf(s, 2) == s[50..100] && PageOf(s, 3) == s[100..130]
    ensures SafePage(10, |s|) == 3 && PageOf(s, 10) == s[100..130]
  {
  }

  // ---------------------------------------------------------------------
  // Daily summaries

  /** `(instant - tz * 60000)` made an integer as `new Date` does, toward
      zero. */
  function TruncateTowardZero(x: real): (r: int)
    ensures x >= 0.0 ==> r as real <= x < r as real + 1.0
    ensures x < 0.0 ==> r as real - 1.0 < x <= r as real
  {
    if x >= 0.0 then x.Floor else -((-x).Floor)
  }

  /** `toDayKey`: the UTC date of the instant moved back by the offset, so
      that a positive offset (the sign `getTimezoneOffset` uses for a zone
      west of UTC) gives an earlier day. */
  function ToDayKey(instant: int, tzOffsetMinutes: real): int {
    DayOf(TruncateTowardZero(instant as real - tzOffsetMinutes * 60000.0))
  }

  /** With no offset the key is the UTC day; an offset within 14 hours moves
      it by at most one day. */
  lemma ToDayKeyBounds(instant: int, tz: real)
    requires -MAX_TZ_MINUTES <= tz <= MAX_TZ_MINUTES
    ensures ToDayKey(instant, 0.0) == DayOf(instant)
    ensures DayOf(instant) - 1 <= ToDayKey(instant, tz) <= DayOf(instant) + 1
  {
    var shifted := TruncateTowardZero(instant as real - tz * 60000.0);
    assert instant - DAY_MS <= shifted <= instant + DAY_MS;
    DayOfMonotone(instant - DAY_MS, shifted);
    DayOfMonotone(shifted, instant + DAY_MS);
    DayOfShift(instant, 1);
    DayOfShift(instant, -1);
  }

  lemma DayOfMonotone(a: int, b: int)
    requires a <= b
    ensures DayOf(a) <= DayOf(b)
  {
  }

  lemma DayOfShift(ms: int, k: int)
    ensures DayOf(ms + k * DAY_MS) == DayOf(ms) + k
  {
  }

  /** 23:30 UTC on any day: an offset of -480 minutes (UTC+8) gives the next
      day and an offset of 480 minutes (UTC-8) the same day. For 2024-01-01
      this is 2024-01-02 and 2024-01-01. */
  lemma LateEveningKeys(day: int)
    ensures var instant := day * DAY_MS + 84_600_000;
      ToDayKey(instant, -480.0) == day + 1 && ToDayKey(instant, 480.0) == day
  {
    var instant := day * DAY_MS + 84_600_000;
    assert instant as real - (-480.0) * 60000.0 == ((day + 1) * DAY_MS + 27_000_000) as real;
    assert instant as real - 480.0 * 60000.0 == (day * DAY_MS + 55_800_000) as real;
  }

  /** The day key of a commit, the same function value for the handler and its
      model. */
  function DayOfCommit(instantOf: string -> int, tz: real): CommitItem -> int {
    (c: CommitItem) => ToDayKey(instantOf(c.committedAt), tz)
  }

  /** Every day is counted on the server. */
  predicate KeepAll(day: int) { true }

  /** The two largest repositories of a day, for all projects only. */
  function TopReposFor(isAll: bool, perDay: map<int, seq<DayRepoCount>>, day: int): seq<DayRepoCount> {
    if isAll && day in perDay then TopTwo(perDay[day]) else []
  }

  /** One summary per key of `ks`, in that order. */
  function SummariesOf(counts: map<int, nat>, perDay: map<int, seq<DayRepoCount>>, isAll: bool, ks: seq<int>): (r: seq<DailySummary>)
    requires forall i :: 0 <= i < |ks| ==> ks[i] in counts
    ensures |r| == |ks|
    ensures forall i :: 0 <= i < |ks| ==>
      r[i].dayKey == ks[i] && r[i].count == counts[ks[i]] && r[i].topRepos == TopReposFor(isAll, perDay, ks[i])
    decreases |ks|
  {
    if ks == [] then []
    else [DailySummary(ks[0], counts[ks[0]], TopReposFor(isAll, perDay, ks[0]))] + SummariesOf(counts, perDay, isAll, ks[1..])
  }

  /** The daily summaries, ascending by day. */
  function Summaries(counts: map<int, nat>, perDay: map<int, seq<DayRepoCount>>, isAll: bool): seq<DailySummary> {
    SummariesOf(counts, perDay, isAll, SortedKeys(counts.Keys))
  }

  function SummaryTotal(s: seq<DailySummary>): nat
    decreases |s|
  {
    if s == [] then 0 else s[0].count + SummaryTotal(s[1..])
  }

  lemma {:induction false} SummaryTotalOf(counts: map<int, nat>, perDay: map<int, seq<DayRepoCount>>, isAll: bool, ks: seq<int>)
    requires forall i :: 0 <= i < |ks| ==> ks[i] in counts
    ensures SummaryTotal(SummariesOf(counts, perDay, isAll, ks)) == SumOver(counts, ks)
    decreases |ks|
  {
    if ks != [] {
      SummaryTotalOf(counts, perDay, isAll, ks[1..]);
    }
  }

  /** The summaries are in strictly ascending day order. */
  lemma SummariesAscending(counts: map<int, nat>, perDay: map<int, seq<DayRepoCount>>, isAll: bool)
    ensures var s := Summaries(counts, perDay, isAll);
      forall i, j :: 0 <= i < j < |s| ==> s[i].dayKey < s[j].dayKey
  {
    var ks := SortedKeys(counts.Keys);
    var s := SummariesOf(counts, perDay, isAll, ks);
    forall i, j | 0 <= i < j < |s| ensures s[i].dayKey < s[j].dayKey {
      assert s[i].dayKey == ks[i] && s[j].dayKey == ks[j];
    }
  }

  /** Each summary is for a counted day and carries that day's count. */
  lemma SummariesCounts(counts: map<int, nat>, perDay: map<int, seq<DayRepoCount>>, isAll: bool)
    ensures var s := Summaries(counts, perDay, isAll);
      forall i :: 0 <= i < |s| ==> s[i].dayKey in counts && s[i].count == counts[s[i].dayKey]
  {
    var ks := SortedKeys(counts.Keys);
    var s := SummariesOf(counts, perDay, isAll, ks);
    forall i | 0 <= i < |s| ensures s[i].dayKey in counts && s[i].count == counts[s[i].dayKey] {
      assert s[i].dayKey == ks[i] && ks[i] in ks;
    }
  }

  /** Every counted day has a summary, and no other day has one. */
  lemma SummariesCover(counts: map<int, nat>, perDay: map<int, seq<DayRepoCount>>, isAll: bool)
    ensures var s := Summaries(counts, perDay, isAll);
      forall d :: (exists i :: 0 <= i < |s| && s[i].dayKey == d) <==> d in counts
  {
    var ks := SortedKeys(counts.Keys);
    var s := SummariesOf(counts, perDay, isAll, ks);
    forall d ensures (exists i :: 0 <= i < |s| && s[i].dayKey == d) <==> d in counts {
      if d in counts {
        assert d in ks;
        var i :| 0 <= i < |ks| && ks[i] == d;
        assert s[i].dayKey == d;
      }
      if exists i :: 0 <= i < |s| && s[i].dayKey == d {
        var i :| 0 <= i < |s| && s[i].dayKey == d;
        assert ks[i] in ks;
      }
    }
  }

  /** The summaries' counts add up to the map's total. */
  lemma SummariesSum(counts: map<int, nat>, perDay: map<int, seq<DayRepoCount>>, isAll: bool)
    ensures SummaryTotal(Summaries(counts, perDay, isAll)) == Total(counts)
  {
    var ks := SortedKeys(counts.Keys);
    SummaryTotalOf(counts, perDay, isAll, ks);
    SumOverSortedKeys(counts, counts.Keys);
  }

  /** A summary's top repositories are at most two, largest first: the top
      two of that day's tally for all projects, taken from it without
      repeats, and none otherwise. */
  lemma SummariesTop(counts: map<int, nat>, perDay: map<int, seq<DayRepoCount>>, isAll: bool)
    ensures var s := Summaries(counts, perDay, isAll);
      forall i :: 0 <= i < |s| ==>
        && |s[i].topRepos| <= 2
        && (|s[i].topRepos| == 2 ==> s[i].topRepos[0].count >= s[i].topRepos[1].count)
        && (!isAll ==> s[i].topRepos == [])
        && (isAll && s[i].dayKey in perDay ==> s[i].topRepos == TopTwo(perDay[s[i].dayKey]))
        && (isAll && s[i].dayKey in perDay ==> multiset(s[i].topRepos) <= multiset(perDay[s[i].dayKey]))
  {
    var s := Summaries(counts, perDay, isAll);
    forall i | 0 <= i < |s| ensures
      && |s[i].topRepos| <= 2
      && (|s[i].topRepos| == 2 ==> s[i].topRepos[0].count >= s[i].topRepos[1].count)
      && (isAll && s[i].dayKey in perDay ==> multiset(s[i].topRepos) <= multiset(perDay[s[i].dayKey]))
    {
      if isAll && s[i].dayKey in perDay {
        TopTwoFacts(perDay[s[i].dayKey]);
      }
    }
  }

  /** The summaries of a list of commits: one per day with commits, in
      strictly ascending day order, each with that day's commit count; the
      counts add up to the number of commits; for all projects, each day's
      top repositories are the top two of the repositories of that day's
      commits. */
  lemma SummariesFacts(commits: seq<CommitItem>, dayOf: CommitItem -> int, isAll: bool)
    ensures var counts := DayCounts(commits, dayOf, KeepAll);
      var perDay := if isAll then DayRepos(commits, dayOf, KeepAll) else map[];
      var s := Summaries(counts, perDay, isAll);
      && (forall d :: (exists i :: 0 <= i < |s| && s[i].dayKey == d) <==> |CommitsOn(commits, dayOf, d)| > 0)
      && (forall i :: 0 <= i < |s| ==> s[i].count == |CommitsOn(commits, dayOf, s[i].dayKey)|)
      && SummaryTotal(s) == |commits|
      && (isAll ==> forall i :: 0 <= i < |s| ==>
            s[i].topRepos == TopTwo(Tally(RepoNames(CommitsOn(commits, dayOf, s[i].dayKey)))))
  {
    var counts := DayCounts(commits, dayOf, KeepAll);
    var perDay := if isAll then DayRepos(commits, dayOf, KeepAll) else map[];
    var s := Summaries(counts, perDay, isAll);
    SummariesAscending(counts, perDay, isAll);
    SummariesCounts(counts, perDay, isAll);
    SummariesCover(counts, perDay, isAll);
    SummariesSum(counts, perDay, isAll);
    SummariesTop(counts, perDay, isAll);
    forall d ensures d in counts <==> |CommitsOn(commits, dayOf, d)| > 0 {
      DayCountsMeaning(commits, dayOf, KeepAll, d);
    }
    forall i | 0 <= i < |s| ensures s[i].count == |CommitsOn(commits, dayOf, s[i].dayKey)| {
      DayCountsMeaning(commits, dayOf, KeepAll, s[i].dayKey);
    }
    DayCountsTotal(commits, dayOf, KeepAll);
    KeptAll(commits, dayOf);
    if isAll {
      forall i | 0 <= i < |s| ensures s[i].topRepos == TopTwo(Tally(RepoNames(CommitsOn(commits, dayOf, s[i].dayKey)))) {
        DayReposMeaning(commits, dayOf, KeepAll, s[i].dayKey);
      }
    }
  }

  lemma {:induction false} KeptAll(commits: seq<CommitItem>, dayOf: CommitItem -> int)
    ensures Kept(commits, dayOf, KeepAll) == commits
    decreases |commits|
  {
    if commits != [] {
      KeptAll(commits[..|commits| - 1], dayOf);
    }
  }

  // ---------------------------------------------------------------------
  // The response

  datatype Payload = Payload(
    commits: seq<CommitItem>,
    totalCommits: nat,
    dailySummaries: seq<DailySummary>,
    page: int,
    pageSize: int,
    totalPages: int)

  /** The cache lifetimes and the `X-Ship-*` headers: whether a token was
      used, whether the answer is partial or truncated, and the number of
      failed repositories when all projects were asked for and some failed. */
  datatype Headers = Headers(
    sMaxAge: int,
    staleWhileRevalidate: int,
    tokenUsed: bool,
    partial: bool,
    truncated: bool,
    repoFailures: Option<nat>)

  datatype Reply =
    | Json(payload: Payload, headers: Headers)
    | JsonError(status: int, error: string)

  /** A fatal error as the client sees it: 502 for an upstream API error,
      with the rate-limit message taking precedence over the 401 message,
      and 500 with its own message for anything else. */
  function ErrorReply(e: FetchError, isRateLimit: string -> bool): (r: Reply)
    ensures r.JsonError?
    ensures r.status == 502 <==> e.ApiError?
    ensures r.status == 500 <==> e.OtherError?
    ensures e.ApiError? && e.status == 403 && isRateLimit(e.message) ==> r.error == RATE_LIMIT_MESSAGE
    ensures e.ApiError? && e.status == 401 ==> r.error == AUTH_MESSAGE
    ensures e.ApiError? && e.status != 401 && !(e.status == 403 && isRateLimit(e.message)) ==>
      r.error == "GitHub API error: " + e.message
    ensures e.OtherError? ==> r.error == e.message
  {
    match e
    case ApiError(status, message) =>
      var text :=
        if status == 403 && isRateLimit(message) then RATE_LIMIT_MESSAGE
        else if status == 401 then AUTH_MESSAGE
        else "GitHub API error: " + message;
      JsonError(502, text)
    case OtherError(message) => JsonError(500, message)
  }

  /** The payload: one page of the merged commits, the totals, and the
      daily summaries of the whole merge. */
  function PayloadFor(outcomes: seq<RepoOutcome>, isAll: bool, q: Query, rt: Runtime): Payload {
    var commits := Merge(outcomes, rt.instantOf);
    var n := |commits|;
    var page := CoercePage(q, rt.toNumber);
    var dayOf := DayOfCommit(rt.instantOf, CoerceTz(q, rt.toNumber));
    var counts := DayCounts(commits, dayOf, KeepAll);
    var perDay := if isAll then DayRepos(commits, dayOf, KeepAll) else map[];
    Payload(PageOf(commits, page), n, Summaries(counts, perDay, isAll), SafePage(page, n), FEED_LIMIT, TotalPages(n))
  }

  /** The headers of a successful reply. */
  function HeadersFor(outcomes: seq<RepoOutcome>, isAll: bool, hasToken: bool): Headers {
    var truncated := AnyTruncated(outcomes);
    var failures := Failures(outcomes);
    Headers(
      if hasToken then 60 else 900,
      if hasToken then 300 else 900,
      hasToken,
      (isAll && |failures| > 0) || truncated,
      truncated,
      if isAll && |failures| > 0 then Some(|failures|) else None)
  }

  /** The successful reply, from the repositories' outcomes. */
  function Assemble(outcomes: seq<RepoOutcome>, isAll: bool, q: Query, rt: Runtime): Reply {
    Json(PayloadFor(outcomes, isAll, q, rt), HeadersFor(outcomes, isAll, HasToken(rt)))
  }

  /** `GET`, as a value. */
  function Respond(q: Query, rt: Runtime): Reply {
    match Validate(q, rt.toNumber, rt.nowMs)
    case Failure(message) => JsonError(400, message)
    case Success(sel) =>
      var budget := BudgetFor(HasToken(rt), sel.isAll, sel.range.daysInclusive);
      match MapAll(sel.repos, FetchTask(rt, sel, budget))
      case Failure(e) => ErrorReply(e, rt.isRateLimit)
      case Success(outcomes) => Assemble(outcomes, sel.isAll, q, rt)
  }

  /** A recorded failure belongs to some repository's outcome, and there are
      none exactly when no outcome records one. */
  lemma {:induction false} FailuresFacts(outcomes: seq<RepoOutcome>)
    ensures forall f :: f in Failures(outcomes) <==> exists i :: 0 <= i < |outcomes| && outcomes[i].failure == Some(f)
    ensures |Failures(outcomes)| <= |outcomes|
    decreases |outcomes|
  {
    if outcomes != [] {
      var init := outcomes[..|outcomes| - 1];
      FailuresFacts(init);
      forall f ensures f in Failures(outcomes) <==> exists i :: 0 <= i < |outcomes| && outcomes[i].failure == Some(f) {
        if f in Failures(init) {
          var i :| 0 <= i < |init| && init[i].failure == Some(f);
          assert outcomes[i] == init[i];
        }
        if exists i :: 0 <= i < |outcomes| && outcomes[i].failure == Some(f) {
          var i :| 0 <= i < |outcomes| && outcomes[i].failure == Some(f);
          if i < |init| {
            assert init[i] == outcomes[i];
          }
        }
      }
    }
  }

  /** A request that fails validation gets a 400 with the validation
      message, and no repository is read. */
  lemma RespondInvalid(q: Query, rt: Runtime)
    requires Validate(q, rt.toNumber, rt.nowMs).Failure?
    ensures Respond(q, rt) == JsonError(400, Validate(q, rt.toNumber, rt.nowMs).error)
  {
  }

  /** A valid request is answered with an error exactly when some
      repository's fetch failed fatally. */
  lemma RespondFails(q: Query, rt: Runtime)
    requires Validate(q, rt.toNumber, rt.nowMs).Success?
    ensures var sel := Validate(q, rt.toNumber, rt.nowMs).value;
      var budget := BudgetFor(HasToken(rt), sel.isAll, sel.range.daysInclusive);
      Respond(q, rt).JsonError? <==> exists k :: 0 <= k < |sel.repos| && FetchRepo(rt, sel, budget, sel.repos[k]).Failure?
  {
    var sel := Validate(q, rt.toNumber, rt.nowMs).value;
    var budget := BudgetFor(HasToken(rt), sel.isAll, sel.range.daysInclusive);
    MapAllSuccess(sel.repos, FetchTask(rt, sel, budget));
  }

  /** An error reply is the mapping of the first repository, in allowlist
      order, whose listing failed fatally; every earlier one was read or
      recorded as failed. */
  lemma RespondFirstFatal(q: Query, rt: Runtime)
    requires Validate(q, rt.toNumber, rt.nowMs).Success?
    requires Respond(q, rt).JsonError?
    ensures var sel := Validate(q, rt.toNumber, rt.nowMs).value;
      var budget := BudgetFor(HasToken(rt), sel.isAll, sel.range.daysInclusive);
      exists k :: 0 <= k < |sel.repos|
        && (forall i :: 0 <= i < k ==> FetchRepo(rt, sel, budget, sel.repos[i]).Success?)
        && var listed := ListCommits(OptionsFor(rt, sel, budget, sel.repos[k]), rt.env, rt.upstream).result;
        && listed.Failure? && IsFatal(listed.error, sel.isAll, rt.isRateLimit)
        && Respond(q, rt) == ErrorReply(listed.error, rt.isRateLimit)
  {
    var sel := Validate(q, rt.toNumber, rt.nowMs).value;
    var budget := BudgetFor(HasToken(rt), sel.isAll, sel.range.daysInclusive);
    var task := FetchTask(rt, sel, budget);
    MapAllFailure(sel.repos, task);
    var k :| 0 <= k < |sel.repos| && task(sel.repos[k]).Failure? && MapAll(sel.repos, task).error == task(sel.repos[k]).error
      && forall i :: 0 <= i < k ==> task(sel.repos[i]).Success?;
    FetchRepoPolicy(rt, sel, budget, sel.repos[k]);
  }

  /** For a single repository every listing error is fatal: the request
      fails exactly when the listing does, with that error's mapping. */
  lemma RespondSingleRepo(q: Query, rt: Runtime)
    requires Validate(q, rt.toNumber, rt.nowMs).Success?
    requires !Validate(q, rt.toNumber, rt.nowMs).value.isAll
    ensures var sel := Validate(q, rt.toNumber, rt.nowMs).value;
      var budget := BudgetFor(HasToken(rt), sel.isAll, sel.range.daysInclusive);
      var listed := ListCommits(OptionsFor(rt, sel, budget, sel.repos[0]), rt.env, rt.upstream).result;
      && (Respond(q, rt).JsonError? <==> listed.Failure?)
      && (listed.Failure? ==> Respond(q, rt) == ErrorReply(listed.error, rt.isRateLimit))
  {
    var sel := Validate(q, rt.toNumber, rt.nowMs).value;
    var budget := BudgetFor(HasToken(rt), sel.isAll, sel.range.daysInclusive);
    assert |sel.repos| == 1;
    RespondFails(q, rt);
    FetchRepoPolicy(rt, sel, budget, sel.repos[0]);
    if Respond(q, rt).JsonError? {
      RespondFirstFatal(q, rt);
    }
  }

  /** The reply built from the repositories' outcomes: the total is the
      number of commits gathered, the page holds the requested slice of the
      newest-first merge, and the summaries account for every commit. */
  lemma AssemblePayload(outcomes: seq<RepoOutcome>, isAll: bool, q: Query, rt: Runtime)
    ensures var commits := Merge(outcomes, rt.instantOf);
      var r := PayloadFor(outcomes, isAll, q, rt);
      && r.totalCommits == |commits| == CommitCount(outcomes)
      && multiset(commits) == multiset(Flatten(outcomes))
      && r.commits == PageOf(commits, CoercePage(q, rt.toNumber))
      && r.totalPages == TotalPages(|commits|)
      && r.pageSize == FEED_LIMIT
      && SummaryTotal(r.dailySummaries) == r.totalCommits
  {
    MergeFacts(outcomes, rt.instantOf);
    FlattenLength(outcomes);
    var commits := Merge(outcomes, rt.instantOf);
    SummariesFacts(commits, DayOfCommit(rt.instantOf, CoerceTz(q, rt.toNumber)), isAll);
  }

  /** The headers: the response is partial exactly when, for all projects, a
      repository failed, or when a listing was truncated; the failure count
      is reported for all projects only, and only when some failed. */
  lemma AssembleHeaders(outcomes: seq<RepoOutcome>, isAll: bool, hasToken: bool)
    ensures var h := HeadersFor(outcomes, isAll, hasToken);
      var failed := exists i :: 0 <= i < |outcomes| && outcomes[i].failure.Some?;
      && h.tokenUsed == hasToken
      && h.sMaxAge == (if hasToken then 60 else 900)
      && h.staleWhileRevalidate == (if hasToken then 300 else 900)
      && h.truncated == (exists i :: 0 <= i < |outcomes| && outcomes[i].list.truncated)
      && (h.partial <==> (isAll && failed) || h.truncated)
      && (h.repoFailures.Some? <==> isAll && failed)
      && (h.repoFailures.Some? ==> 1 <= h.repoFailures.value <= |outcomes|)
  {
    FailuresFacts(outcomes);
    if exists i :: 0 <= i < |outcomes| && outcomes[i].failure.Some? {
      var i :| 0 <= i < |outcomes| && outcomes[i].failure.Some?;
      assert outcomes[i].failure.value in Failures(outcomes);
    }
    if |Failures(outcomes)| > 0 {
      assert Failures(outcomes)[0] in Failures(outcomes);
    }
  }

  /** A valid request whose repositories were all read (or, for all
      projects, recorded as failed) is answered with commits built from one
      outcome per repository, in allowlist order. */
  lemma RespondSuccess(q: Query, rt: Runtime)
    requires Validate(q, rt.toNumber, rt.nowMs).Success?
    requires var sel := Validate(q, rt.toNumber, rt.nowMs).value;
      MapAll(sel.repos, FetchTask(rt, sel, BudgetFor(HasToken(rt), sel.isAll, sel.range.daysInclusive))).Success?
    ensures var sel := Validate(q, rt.toNumber, rt.nowMs).value;
      var budget := BudgetFor(HasToken(rt), sel.isAll, sel.range.daysInclusive);
      var outcomes := MapAll(sel.repos, FetchTask(rt, sel, budget)).value;
      && |outcomes| == |sel.repos|
      && (forall i :: 0 <= i < |outcomes| ==> Success(outcomes[i]) == FetchRepo(rt, sel, budget, sel.repos[i]))
      && Respond(q, rt) == Assemble(outcomes, sel.isAll, q, rt)
      && Respond(q, rt).Json?
  {
    var sel := Validate(q, rt.toNumber, rt.nowMs).value;
    var budget := BudgetFor(HasToken(rt), sel.isAll, sel.range.daysInclusive);
    MapAllSuccess(sel.repos, FetchTask(rt, sel, budget));
  }

  // ---------------------------------------------------------------------
  // The handler

  /** `GET /api/commits`: validates the query, reads the repositories
      through the worker pool, and builds the reply, exactly as `Respond`
      describes it. */
  method Get(q: Query, rt: Runtime) returns (r: Reply)
    ensures r == Respond(q, rt)
  {
    var page := CoercePage(q, rt.toNumber);
    var tzOffsetMinutes := CoerceTz(q, rt.toNumber);
    var checked := Validate(q, rt.toNumber, rt.nowMs);
    if checked.Failure? {
      return JsonError(400, checked.error);
    }
    var sel := checked.value;
    var hasToken := HasToken(rt);
    var budget := BudgetFor(hasToken, sel.isAll, sel.range.daysInclusive);
    var perRepo, _ := MapWithConcurrency(sel.repos, budget.concurrency, FetchTask(rt, sel, budget));
    if perRepo.Failure? {
      return ErrorReply(perRepo.error, rt.isRateLimit);
    }
    var outcomes := perRepo.value;
    var commits := Merge(outcomes, rt.instantOf);
    var truncated := AnyTruncated(outcomes);
    var repoFailures := Failures(outcomes);
    var totalCommits := |commits|;
    var totalPages := TotalPages(totalCommits);
    var safePage := SafePage(page, totalCommits);
    var startIndex := (safePage - 1) * FEED_LIMIT;
    var limitedCommits := JsSlice(commits, startIndex, startIndex + FEED_LIMIT);
    var dayCounts, perDayRepos := TallyDays(commits, DayOfCommit(rt.instantOf, tzOffsetMinutes), KeepAll, sel.isAll);
    var dailySummaries := Summaries(dayCounts, perDayRepos, sel.isAll);
    var isPartial := (sel.isAll && |repoFailures| > 0) || truncated;
    assert limitedCommits == PageOf(commits, page);
    r := Json(
      Payload(limitedCommits, totalCommits, dailySummaries, safePage, FEED_LIMIT, totalPages),
      Headers(
        if hasToken then 60 else 900,
        if hasToken then 300 else 900,
        hasToken,
        isPartial,
        truncated,
        if sel.isAll && |repoFailures| > 0 then Some(|repoFailures|) else None));
  }
}
