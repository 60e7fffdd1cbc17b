/** The GitHub client (src/lib/github.ts): the paging loop that lists a
    repository's commits in a date window, the normalisation of each raw
    entry into a `CommitItem`, the commit-message splitter and the token
    lookup. The HTTP layer is a function from the request the loop makes to
    the response it gets back; a failed JSON decoding or network failure is a
    `Thrown` response. */
module GitHub {
  import opened Wrappers
  import opened Text
  import opened Types

  /** The three environment variables the token may come from. */
  datatype Env = Env(githubToken: Option<string>, shipGithubToken: Option<string>, ghToken: Option<string>)

  /** One entry of the upstream commit list: the message and both dates may be
      missing (`null` or absent). */
  datatype RawCommit = RawCommit(
    sha: string,
    htmlUrl: string,
    message: Option<string>,
    committerDate: Option<string>,
    authorDate: Option<string>)

  /** What one iteration of the loop asks the upstream for: the repository,
      the window (as instants), `per_page`, `page`, the `Authorization`
      header if any, and the cache revalidation period. */
  datatype PageRequest = PageRequest(
    repo: string,
    sinceMs: int,
    untilMs: int,
    perPage: int,
    page: int,
    authorization: Option<string>,
    revalidateSeconds: int)

  /** An HTTP answer (status, the decoded list for a success, the `message`
      field of an error body if it had one), or an exception. */
  datatype PageResponse =
    | Http(status: int, items: seq<RawCommit>, errorMessage: Option<string>)
    | Thrown(message: string)

  /** `GitHubApiError` with its status, or any other error with its message. */
  datatype FetchError = ApiError(status: int, message: string) | OtherError(message: string)

  datatype CommitListResult = CommitListResult(commits: seq<CommitItem>, truncated: bool)

  datatype ListOptions = ListOptions(
    repo: string,
    sinceMs: int,
    untilMs: int,
    perPage: Option<int>,
    maxPages: Option<int>,
    revalidateSeconds: Option<int>,
    token: Option<string>)

  // ---------------------------------------------------------------------
  // Commit messages

  /** `message.split(/\r?\n/)`: a line feed ends a line, together with one
      carriage return right before it. */
  function SplitLines(s: string): (lines: seq<string>)
    ensures |lines| >= 1
    decreases |s|
  {
    if s == [] then [[]]
    else if s[0] == '\n' then [[]] + SplitLines(s[1..])
    else if |s| >= 2 && s[0] == '\r' && s[1] == '\n' then [[]] + SplitLines(s[2..])
    else
      var rest := SplitLines(s[1..]);
      [[s[0]] + rest[0]] + rest[1..]
  }

  /** `s` with every carriage-return/line-feed pair replaced by a line feed. */
  function NormalizeCrlf(s: string): string
    decreases |s|
  {
    if s == [] then []
    else if |s| >= 2 && s[0] == '\r' && s[1] == '\n' then "\n" + NormalizeCrlf(s[2..])
    else [s[0]] + NormalizeCrlf(s[1..])
  }

  /** The index of the first line feed, or `|s|` when there is none. */
  function FirstNewline(s: string): (i: nat)
    ensures i <= |s| && '\n' !in s[..i]
    ensures i < |s| ==> s[i] == '\n'
  {
    if s == [] || s[0] == '\n' then 0
    else
      var i := 1 + FirstNewline(s[1..]);
      assert s[..i] == [s[0]] + s[1..][..i - 1];
      i
  }

  /** The text before the first line feed, less one carriage return that
      ends it. */
  function FirstLine(s: string): string {
    var i := FirstNewline(s);
    if 0 < i < |s| && s[i - 1] == '\r' then s[..i - 1] else s[..i]
  }

  /** A character that starts neither a line feed nor a carriage-return/
      line-feed pair belongs to the first line. */
  lemma FirstLineCons(s: string)
    requires s != [] && s[0] != '\n' && !(|s| >= 2 && s[0] == '\r' && s[1] == '\n')
    ensures FirstLine(s) == [s[0]] + FirstLine(s[1..])
  {
    var t := s[1..];
    var i' := FirstNewline(t);
    assert FirstNewline(s) == i' + 1;
    if 0 < i' < |t| && t[i' - 1] == '\r' {
      assert [s[0]] + t[..i' - 1] == s[..i'];
    } else {
      assert [s[0]] + t[..i'] == s[..i' + 1];
      if i' == 0 && |t| > 0 {
        assert t[0] == '\n';
      }
    }
  }

  /** The first of the lines is the first line. */
  lemma {:induction false} SplitLinesFirst(s: string)
    ensures SplitLines(s)[0] == FirstLine(s)
    decreases |s|
  {
    if s != [] && s[0] != '\n' && !(|s| >= 2 && s[0] == '\r' && s[1] == '\n') {
      SplitLinesFirst(s[1..]);
      FirstLineCons(s);
    }
  }

  /** Without a line feed there is one line, the whole text. */
  lemma {:induction false} SplitLinesSingle(s: string)
    requires FirstNewline(s) == |s|
    ensures SplitLines(s) == [s]
    decreases |s|
  {
    if s != [] {
      assert s[0] != '\n';
      var t := s[1..];
      assert FirstNewline(t) == |t|;
      SplitLinesSingle(t);
      if |s| >= 2 && s[0] == '\r' {
        assert s[1] != '\n' by {
          assert FirstNewline(s) == 1 + FirstNewline(t);
        }
      }
      assert [s[0]] + t == s;
    }
  }

  /** With a line feed, the lines after the first are the lines of the
      text after the first line feed. */
  lemma {:induction false} SplitLinesRest(s: string)
    requires FirstNewline(s) < |s|
    ensures SplitLines(s)[1..] == SplitLines(s[FirstNewline(s) + 1..])
    decreases |s|
  {
    if s[0] != '\n' && !(|s| >= 2 && s[0] == '\r' && s[1] == '\n') {
      var t := s[1..];
      assert FirstNewline(s) == FirstNewline(t) + 1;
      SplitLinesRest(t);
      assert t[FirstNewline(t) + 1..] == s[FirstNewline(s) + 1..];
    }
  }

  /** Joining the lines with line feeds gives the text back with its
      carriage-return/line-feed pairs turned into line feeds. */
  lemma {:induction false} JoinSplitLines(s: string)
    ensures Join(SplitLines(s), "\n") == NormalizeCrlf(s)
    decreases |s|
  {
    if s == [] {
    } else if s[0] == '\n' {
      JoinSplitLines(s[1..]);
      assert NormalizeCrlf(s) == "\n" + NormalizeCrlf(s[1..]);
    } else if |s| >= 2 && s[0] == '\r' && s[1] == '\n' {
      JoinSplitLines(s[2..]);
    } else {
      JoinSplitLines(s[1..]);
      var rest := SplitLines(s[1..]);
      if |rest| > 1 {
        calc {
          Join(SplitLines(s), "\n");
          ([s[0]] + rest[0]) + "\n" + Join(rest[1..], "\n");
          [s[0]] + (rest[0] + "\n" + Join(rest[1..], "\n"));
          [s[0]] + Join(rest, "\n");
        }
      }
    }
  }

  datatype SplitMessage = SplitMessage(subject: string, body: string)

  /** `splitCommitMessage`: the first line, and the remaining lines rejoined
      with line feeds and trimmed. */
  function SplitCommitMessage(message: string): SplitMessage {
    var lines := SplitLines(message);
    SplitMessage(lines[0], Trim(Join(lines[1..], "\n")))
  }

  /** The subject is the text before the first line feed, less a carriage
      return that ends it, and never holds a line feed. */
  lemma SplitCommitMessageSubject(message: string)
    ensures SplitCommitMessage(message).subject == FirstLine(message)
    ensures '\n' !in SplitCommitMessage(message).subject
  {
    SplitLinesFirst(message);
    FirstLineNoFeed(message);
  }

  /** The first line holds no line feed. */
  lemma FirstLineNoFeed(s: string)
    ensures '\n' !in FirstLine(s)
  {
    var i := FirstNewline(s);
    if 0 < i < |s| && s[i - 1] == '\r' {
      assert forall j :: 0 <= j < i - 1 ==> s[..i - 1][j] == s[..i][j];
    }
  }

  /** The body is everything after the first line feed, with its line breaks
      normalised to line feeds, trimmed; a one-line message is all subject and
      has an empty body. */
  lemma SplitCommitMessageBody(message: string)
    ensures '\n' !in message ==>
      SplitCommitMessage(message).subject == message && SplitCommitMessage(message).body == ""
    ensures '\n' in message ==>
      SplitCommitMessage(message).body == Trim(NormalizeCrlf(message[FirstNewline(message) + 1..]))
  {
    RemainingLines(message);
  }

  /** What follows the first line, rejoined, is the normalised text after the
      first line feed; without a line feed there is nothing after it. */
  lemma RemainingLines(message: string)
    ensures '\n' !in message ==> FirstNewline(message) == |message| && SplitLines(message) == [message]
    ensures '\n' in message ==>
      Join(SplitLines(message)[1..], "\n") == NormalizeCrlf(message[FirstNewline(message) + 1..])
  {
    var i := FirstNewline(message);
    if i < |message| {
      SplitLinesRest(message);
      JoinSplitLines(message[i + 1..]);
    } else {
      SplitLinesSingle(message);
      assert message[..i] == message;
    }
  }

  // ---------------------------------------------------------------------
  // Token and request parameters

  /** `readGitHubTokenFromEnv`: the first variable that is set, in the order
      GITHUB_TOKEN, SHIP_GITHUB_TOKEN, GH_TOKEN; a variable set to the empty
      string still counts as set. */
  function ReadGitHubTokenFromEnv(env: Env): (r: Option<string>)
    ensures r.None? <==> env.githubToken.None? && env.shipGithubToken.None? && env.ghToken.None?
    ensures env.githubToken.Some? ==> r == env.githubToken
    ensures env.githubToken.None? && env.shipGithubToken.Some? ==> r == env.shipGithubToken
    ensures env.githubToken.None? && env.shipGithubToken.None? ==> r == env.ghToken
  {
    if env.githubToken.Some? then env.githubToken
    else if env.shipGithubToken.Some? then env.shipGithubToken
    else env.ghToken
  }

  /** The token the loop uses: the caller's, else the environment's. */
  function ResolvedToken(o: ListOptions, env: Env): Option<string> {
    if o.token.Some? then o.token else ReadGitHubTokenFromEnv(env)
  }

  /** The header is sent only for a non-empty token, as a bearer token. */
  function Authorization(o: ListOptions, env: Env): (r: Option<string>)
    ensures r.Some? <==> ResolvedToken(o, env).Some? && ResolvedToken(o, env).value != ""
    ensures r.Some? ==> r.value == "Bearer " + ResolvedToken(o, env).value
    ensures o.token.Some? && o.token.value != "" ==> r == Some("Bearer " + o.token.value)
  {
    match ResolvedToken(o, env)
    case Some(t) => if t != "" then Some("Bearer " + t) else None
    case None => None
  }

  function PerPage(o: ListOptions): int { o.perPage.GetOr(100) }
  function MaxPages(o: ListOptions): int { o.maxPages.GetOr(3) }
  function RevalidateSeconds(o: ListOptions): int { o.revalidateSeconds.GetOr(60) }

  /** The request for page `page`: everything but the page number is the
      same on every iteration. */
  function RequestFor(o: ListOptions, env: Env, page: int): (q: PageRequest)
    ensures q.page == page && q.repo == o.repo && q.sinceMs == o.sinceMs && q.untilMs == o.untilMs
    ensures o.perPage.None? ==> q.perPage == 100
    ensures o.perPage.Some? ==> q.perPage == o.perPage.value
    ensures o.revalidateSeconds.None? ==> q.revalidateSeconds == 60
    ensures o.revalidateSeconds.Some? ==> q.revalidateSeconds == o.revalidateSeconds.value
    ensures q.authorization == Authorization(o, env)
  {
    PageRequest(o.repo, o.sinceMs, o.untilMs, PerPage(o), page, Authorization(o, env), RevalidateSeconds(o))
  }

  // ---------------------------------------------------------------------
  // Normalisation

  /** The committer date when it is present, else the author date; an empty
      or missing choice means the entry has no timestamp. An empty committer
      date is chosen, and so drops the entry, even when an author date
      exists. */
  function Timestamp(c: RawCommit): (r: Option<string>)
    ensures r.Some? ==> r.value != ""
    ensures c.committerDate.Some? ==>
      r == (if c.committerDate.value == "" then None else c.committerDate)
    ensures c.committerDate.None? ==>
      r == (if c.authorDate.Some? && c.authorDate.value != "" then c.authorDate else None)
  {
    var chosen := if c.committerDate.Some? then c.committerDate else c.authorDate;
    match chosen
    case Some(d) => if d == "" then None else Some(d)
    case None => None
  }

  /** The record pushed for an entry with a timestamp. */
  function ToItem(repo: string, c: RawCommit): (item: CommitItem)
    requires Timestamp(c).Some?
    ensures item.sha == c.sha && item.htmlUrl == c.htmlUrl && item.repo == repo
    ensures item.committedAt == Timestamp(c).value
    ensures var split := SplitCommitMessage(c.message.GetOr(""));
      item.messageSubject == split.subject && item.messageBody == split.body
  {
    var split := SplitCommitMessage(c.message.GetOr(""));
    CommitItem(c.sha, repo, c.htmlUrl, Timestamp(c).value, split.subject, split.body)
  }

  /** The records a page contributes, in page order: one per entry with a
      timestamp. */
  function NormalizePage(repo: string, items: seq<RawCommit>): (r: seq<CommitItem>)
    ensures |r| <= |items|
    ensures forall k :: 0 <= k < |r| ==> r[k].repo == repo && r[k].committedAt != ""
  {
    if items == [] then []
    else
      var init := NormalizePage(repo, items[..|items| - 1]);
      var last := items[|items| - 1];
      if Timestamp(last).Some? then init + [ToItem(repo, last)] else init
  }

  /** A page whose entries all carry a timestamp keeps every entry, in order. */
  lemma {:induction false} NormalizePageKeepsTimed(repo: string, items: seq<RawCommit>)
    requires forall k :: 0 <= k < |items| ==> Timestamp(items[k]).Some?
    ensures |NormalizePage(repo, items)| == |items|
    ensures forall k :: 0 <= k < |items| ==> NormalizePage(repo, items)[k] == ToItem(repo, items[k])
  {
    if items != [] {
      NormalizePageKeepsTimed(repo, items[..|items| - 1]);
    }
  }

  /** Normalising two runs of entries one after the other gives the records
      of the first followed by those of the second. */
  lemma {:induction false} NormalizePageAppend(repo: string, a: seq<RawCommit>, b: seq<RawCommit>)
    ensures NormalizePage(repo, a + b) == NormalizePage(repo, a) + NormalizePage(repo, b)
    decreases |b|
  {
    if b == [] {
      assert a + b == a;
    } else {
      var b' := b[..|b| - 1];
      NormalizePageAppend(repo, a, b');
      assert (a + b)[..|a + b| - 1] == a + b';
      assert (a + b)[|a + b| - 1] == b[|b| - 1];
    }
  }

  /** A page is normalised entry by entry, from the first: an entry with a
      timestamp gives its record, one without gives nothing. */
  lemma NormalizePageCons(repo: string, c: RawCommit, rest: seq<RawCommit>)
    ensures NormalizePage(repo, [c] + rest)
         == (if Timestamp(c).Some? then [ToItem(repo, c)] else []) + NormalizePage(repo, rest)
  {
    NormalizePageAppend(repo, [c], rest);
    assert [c][..0] == [];
  }

  // ---------------------------------------------------------------------
  // The page loop, as a specification

  predicate IsOk(status: int) { 200 <= status <= 299 }

  /** A response that throws out of the loop. */
  predicate Fails(resp: PageResponse) {
    resp.Thrown? || (resp.status != 409 && !IsOk(resp.status))
  }

  /** A response after which the loop moves on to the next page (unless it
      was the last allowed page). */
  predicate FullPage(resp: PageResponse, perPage: int) {
    resp.Http? && IsOk(resp.status) && |resp.items| > 0 && |resp.items| >= perPage
  }

  /** The error a failing response is thrown as; an error body without a
      `message` gets a generic one naming the status. */
  function ErrorOf(resp: PageResponse): (e: FetchError)
    requires Fails(resp)
    ensures resp.Thrown? ==> e == OtherError(resp.message)
    ensures resp.Http? ==> e.ApiError? && e.status == resp.status
    ensures resp.Http? && resp.errorMessage.Some? ==> e.message == resp.errorMessage.value
    ensures resp.Http? && resp.errorMessage.None? ==> e.message == "GitHub API error (" + IntToDecimal(resp.status) + ")"
  {
    match resp
    case Thrown(m) => OtherError(m)
    case Http(status, _, msg) =>
      ApiError(status, msg.GetOr("GitHub API error (" + IntToDecimal(status) + ")"))
  }

  function Response(o: ListOptions, env: Env, upstream: PageRequest -> PageResponse, page: int): PageResponse {
    upstream(RequestFor(o, env, page))
  }

  /** The outcome of the loop, and the last page it requested (0 when none). */
  datatype Fetched = Fetched(result: Result<CommitListResult, FetchError>, lastPage: int)

  /** The loop from page `page` on, with `acc` collected so far. */
  function Paginate(o: ListOptions, env: Env, upstream: PageRequest -> PageResponse, page: int, acc: seq<CommitItem>): Fetched
    requires page >= 1
    decreases MaxPages(o) - page
  {
    if page > MaxPages(o) then Fetched(Success(CommitListResult(acc, false)), page - 1)
    else
      var resp := Response(o, env, upstream, page);
      if Fails(resp) then Fetched(Failure(ErrorOf(resp)), page)
      else if resp.status == 409 || |resp.items| == 0 then Fetched(Success(CommitListResult(acc, false)), page)
      else
        var acc' := acc + NormalizePage(o.repo, resp.items);
        if |resp.items| < PerPage(o) then Fetched(Success(CommitListResult(acc', false)), page)
        else if page == MaxPages(o) then Fetched(Success(CommitListResult(acc', true)), page)
        else Paginate(o, env, upstream, page + 1, acc')
  }

  /** `listCommitsForRepo`, as a value. */
  function ListCommits(o: ListOptions, env: Env, upstream: PageRequest -> PageResponse): Fetched {
    Paginate(o, env, upstream, 1, [])
  }

  /** The records of pages `lo` to `hi`, in order; a page that was not a
      success contributes none. */
  function PagesFrom(o: ListOptions, env: Env, upstream: PageRequest -> PageResponse, lo: int, hi: int): seq<CommitItem>
    decreases hi - lo
  {
    if lo > hi then []
    else
      var resp := Response(o, env, upstream, lo);
      var here := if resp.Http? && IsOk(resp.status) then NormalizePage(o.repo, resp.items) else [];
      here + PagesFrom(o, env, upstream, lo + 1, hi)
  }

  /** Where the loop from page `page` stops: at once past `maxPages`, else
      at a page no later than `maxPages`, every page before it full. */
  lemma {:induction false} PaginateStops(o: ListOptions, env: Env, upstream: PageRequest -> PageResponse, page: int, acc: seq<CommitItem>)
    requires page >= 1
    ensures var f := Paginate(o, env, upstream, page, acc);
      && (page > MaxPages(o) ==> f == Fetched(Success(CommitListResult(acc, false)), page - 1))
      && (page <= MaxPages(o) ==> page <= f.lastPage <= MaxPages(o))
      && (forall p :: page <= p < f.lastPage ==> FullPage(Response(o, env, upstream, p), PerPage(o)))
    decreases MaxPages(o) - page
  {
    if page <= MaxPages(o) {
      var resp := Response(o, env, upstream, page);
      if !Fails(resp) && resp.status != 409 && |resp.items| != 0
        && |resp.items| >= PerPage(o) && page != MaxPages(o)
      {
        PaginateStops(o, env, upstream, page + 1, acc + NormalizePage(o.repo, resp.items));
      }
    }
  }

  /** A loop that starts within `maxPages` requests its first page. */
  lemma {:induction false} PaginateReachesPage(o: ListOptions, env: Env, upstream: PageRequest -> PageResponse, page: int, acc: seq<CommitItem>)
    requires 1 <= page <= MaxPages(o)
    ensures Paginate(o, env, upstream, page, acc).lastPage >= page
    decreases MaxPages(o) - page
  {
    var resp := Response(o, env, upstream, page);
    if !Fails(resp) && resp.status != 409 && |resp.items| != 0
      && |resp.items| >= PerPage(o) && page != MaxPages(o)
    {
      PaginateReachesPage(o, env, upstream, page + 1, acc + NormalizePage(o.repo, resp.items));
    }
  }

  /** The loop fails exactly when the page it stopped at fails, with that
      page's error. */
  lemma {:induction false} PaginateFails(o: ListOptions, env: Env, upstream: PageRequest -> PageResponse, page: int, acc: seq<CommitItem>)
    requires page >= 1
    ensures var f := Paginate(o, env, upstream, page, acc);
      && (f.lastPage >= page ==> (f.result.Failure? <==> Fails(Response(o, env, upstream, f.lastPage))))
      && (f.result.Failure? ==> f.lastPage >= page && f.result.error == ErrorOf(Response(o, env, upstream, f.lastPage)))
    decreases MaxPages(o) - page
  {
    if page <= MaxPages(o) {
      var resp := Response(o, env, upstream, page);
      if !Fails(resp) && resp.status != 409 && |resp.items| != 0
        && |resp.items| >= PerPage(o) && page != MaxPages(o)
      {
        PaginateFails(o, env, upstream, page + 1, acc + NormalizePage(o.repo, resp.items));
      }
    }
  }

  /** A successful loop returns `acc` followed by the records of the pages
      it read. */
  lemma {:induction false} PaginateCollects(o: ListOptions, env: Env, upstream: PageRequest -> PageResponse, page: int, acc: seq<CommitItem>)
    requires page >= 1
    ensures var f := Paginate(o, env, upstream, page, acc);
      f.result.Success? ==> f.result.value.commits == acc + PagesFrom(o, env, upstream, page, f.lastPage)
    decreases MaxPages(o) - page
  {
    if page <= MaxPages(o) {
      var resp := Response(o, env, upstream, page);
      if Fails(resp) {
      } else if resp.status == 409 || |resp.items| == 0 {
        assert PagesFrom(o, env, upstream, page + 1, page) == [];
      } else {
        var here := NormalizePage(o.repo, resp.items);
        var acc' := acc + here;
        if |resp.items| < PerPage(o) || page == MaxPages(o) {
          assert PagesFrom(o, env, upstream, page + 1, page) == [];
        } else {
          assert Paginate(o, env, upstream, page, acc) == Paginate(o, env, upstream, page + 1, acc');
          PaginateCollects(o, env, upstream, page + 1, acc');
          PaginateReachesPage(o, env, upstream, page + 1, acc');
          var f := Paginate(o, env, upstream, page + 1, acc');
          if f.result.Success? {
            assert PagesFrom(o, env, upstream, page, f.lastPage) == here + PagesFrom(o, env, upstream, page + 1, f.lastPage);
            assert acc' + PagesFrom(o, env, upstream, page + 1, f.lastPage)
                == acc + PagesFrom(o, env, upstream, page, f.lastPage);
          }
        }
      }
    }
  }

  /** A successful loop is truncated exactly when it stopped at a full page
      `maxPages`. */
  lemma {:induction false} PaginateTruncated(o: ListOptions, env: Env, upstream: PageRequest -> PageResponse, page: int, acc: seq<CommitItem>)
    requires page >= 1
    ensures var f := Paginate(o, env, upstream, page, acc);
      f.result.Success? ==>
        (f.result.value.truncated <==>
           f.lastPage == MaxPages(o) >= page && FullPage(Response(o, env, upstream, f.lastPage), PerPage(o)))
    decreases MaxPages(o) - page
  {
    if page <= MaxPages(o) {
      var resp := Response(o, env, upstream, page);
      if !Fails(resp) && resp.status != 409 && |resp.items| != 0
        && |resp.items| >= PerPage(o) && page != MaxPages(o)
      {
        var acc' := acc + NormalizePage(o.repo, resp.items);
        PaginateTruncated(o, env, upstream, page + 1, acc');
        PaginateStops(o, env, upstream, page + 1, acc');
      }
    }
  }

  /** Pages are requested as 1, 2, ... and never beyond `maxPages`; a page is
      followed by another only when it came back full. */
  lemma ListCommitsPages(o: ListOptions, env: Env, upstream: PageRequest -> PageResponse)
    ensures var f := ListCommits(o, env, upstream);
      && (MaxPages(o) < 1 ==> f == Fetched(Success(CommitListResult([], false)), 0))
      && (MaxPages(o) >= 1 ==> 1 <= f.lastPage <= MaxPages(o))
      && (forall p :: 1 <= p < f.lastPage ==> FullPage(Response(o, env, upstream, p), PerPage(o)))
  {
    PaginateStops(o, env, upstream, 1, []);
  }

  /** A failing response ends the loop with its error and nothing else; a
      409 or an empty page ends it without error. */
  lemma ListCommitsErrors(o: ListOptions, env: Env, upstream: PageRequest -> PageResponse)
    ensures var f := ListCommits(o, env, upstream);
      && (f.result.Failure? <==> f.lastPage >= 1 && Fails(Response(o, env, upstream, f.lastPage)))
      && (f.result.Failure? ==> f.result.error == ErrorOf(Response(o, env, upstream, f.lastPage)))
  {
    PaginateFails(o, env, upstream, 1, []);
  }

  /** `truncated` holds exactly when page `maxPages` was requested and came
      back full. */
  lemma ListCommitsTruncated(o: ListOptions, env: Env, upstream: PageRequest -> PageResponse)
    ensures var f := ListCommits(o, env, upstream);
      f.result.Success? ==>
        (f.result.value.truncated <==>
           f.lastPage == MaxPages(o) >= 1 && FullPage(Response(o, env, upstream, MaxPages(o)), PerPage(o)))
  {
    PaginateTruncated(o, env, upstream, 1, []);
  }

  /** The commits are the normalised entries of the requested pages, in
      order, each tagged with the repository. */
  lemma ListCommitsCollects(o: ListOptions, env: Env, upstream: PageRequest -> PageResponse)
    ensures var f := ListCommits(o, env, upstream);
      f.result.Success? ==>
        && f.result.value.commits == PagesFrom(o, env, upstream, 1, f.lastPage)
        && forall k :: 0 <= k < |f.result.value.commits| ==> f.result.value.commits[k].repo == o.repo
  {
    PaginateCollects(o, env, upstream, 1, []);
    var f := ListCommits(o, env, upstream);
    if f.result.Success? {
      PagesFromRepo(o, env, upstream, 1, f.lastPage);
    }
  }

  lemma {:induction false} PagesFromRepo(o: ListOptions, env: Env, upstream: PageRequest -> PageResponse, lo: int, hi: int)
    ensures forall k :: 0 <= k < |PagesFrom(o, env, upstream, lo, hi)| ==> PagesFrom(o, env, upstream, lo, hi)[k].repo == o.repo
    decreases hi - lo
  {
    if lo <= hi {
      PagesFromRepo(o, env, upstream, lo + 1, hi);
    }
  }

  /** When no page holds more than `perPage` entries, pages `lo` to `hi`
      yield at most `perPage` records each. */
  lemma {:induction false} PagesFromBound(o: ListOptions, env: Env, upstream: PageRequest -> PageResponse, lo: int, hi: int)
    requires PerPage(o) >= 0
    requires forall p :: lo <= p <= hi && Response(o, env, upstream, p).Http? ==> |Response(o, env, upstream, p).items| <= PerPage(o)
    ensures lo <= hi + 1 ==> |PagesFrom(o, env, upstream, lo, hi)| <= (hi - lo + 1) * PerPage(o)
    decreases hi - lo
  {
    if lo <= hi {
      PagesFromBound(o, env, upstream, lo + 1, hi);
      var per := PerPage(o);
      var resp := Response(o, env, upstream, lo);
      var here := if resp.Http? && IsOk(resp.status) then NormalizePage(o.repo, resp.items) else [];
      assert |here| <= per;
      assert PagesFrom(o, env, upstream, lo, hi) == here + PagesFrom(o, env, upstream, lo + 1, hi);
      assert (hi - lo) * per + per == (hi - lo + 1) * per;
    }
  }

  /** The count is bounded by `maxPages * perPage` when pages hold at most
      `perPage` entries. */
  lemma ListCommitsBound(o: ListOptions, env: Env, upstream: PageRequest -> PageResponse)
    requires PerPage(o) >= 1
    requires forall p :: 1 <= p <= MaxPages(o) && Response(o, env, upstream, p).Http? ==> |Response(o, env, upstream, p).items| <= PerPage(o)
    ensures var f := ListCommits(o, env, upstream);
      f.result.Success? ==> |f.result.value.commits| <= MaxPages(o) * PerPage(o) || MaxPages(o) < 1
  {
    PaginateCollects(o, env, upstream, 1, []);
    PaginateStops(o, env, upstream, 1, []);
    var f := ListCommits(o, env, upstream);
    if f.result.Success? && MaxPages(o) >= 1 {
      PagesFromBound(o, env, upstream, 1, f.lastPage);
      ScaleMonotone(f.lastPage, MaxPages(o), PerPage(o));
    }
  }

  lemma ScaleMonotone(a: int, b: int, c: int)
    requires a <= b && c >= 0
    ensures a * c <= b * c
  {
    assert b * c - a * c == (b - a) * c;
  }

  // ---------------------------------------------------------------------
  // The page loop, as the source runs it

  /** `listCommitsForRepo`: returns the outcome and the last page requested,
      exactly as `ListCommits` describes them. */
  method ListCommitsForRepo(o: ListOptions, env: Env, upstream: PageRequest -> PageResponse)
    returns (result: Result<CommitListResult, FetchError>, lastPage: int)
    ensures Fetched(result, lastPage) == ListCommits(o, env, upstream)
  {
    var perPage := PerPage(o);
    var maxPages := MaxPages(o);
    var commits: seq<CommitItem> := [];
    var truncated := false;
    lastPage := 0;
    var page := 1;
    while page <= maxPages
      invariant 1 <= page && lastPage == page - 1
      invariant !truncated ==> Paginate(o, env, upstream, page, commits) == ListCommits(o, env, upstream)
      invariant truncated ==>
        page == maxPages + 1 && ListCommits(o, env, upstream) == Fetched(Success(CommitListResult(commits, true)), maxPages)
      decreases maxPages - page
    {
      lastPage := page;
      var res := upstream(RequestFor(o, env, page));
      if res.Thrown? {
        return Failure(OtherError(res.message)), lastPage;
      }
      if res.status == 409 {
        assert ListCommits(o, env, upstream) == Fetched(Success(CommitListResult(commits, truncated)), lastPage);
        break;
      }
      if !IsOk(res.status) {
        return Failure(ErrorOf(res)), lastPage;
      }
      var data := res.items;
      if |data| == 0 {
        assert ListCommits(o, env, upstream) == Fetched(Success(CommitListResult(commits, truncated)), lastPage);
        break;
      }
      ghost var before := commits;
      commits := AppendPage(commits, o.repo, data);
      if |data| < perPage {
        assert ListCommits(o, env, upstream) == Fetched(Success(CommitListResult(commits, truncated)), lastPage);
        break;
      }
      if page == maxPages {
        truncated := true;
      }
      page := page + 1;
    }
    result := Success(CommitListResult(commits, truncated));
  }

  /** The inner loop over one page: each entry with a timestamp is pushed,
      in page order. */
  method AppendPage(commits: seq<CommitItem>, repo: string, data: seq<RawCommit>) returns (r: seq<CommitItem>)
    ensures r == commits + NormalizePage(repo, data)
  {
    r := commits;
    var j := 0;
    while j < |data|
      invariant 0 <= j <= |data|
      invariant r == commits + NormalizePage(repo, data[..j])
    {
      assert data[..j + 1][..j] == data[..j];
      var item := data[j];
      if Timestamp(item).Some? {
        r := r + [ToItem(repo, item)];
      }
      j := j + 1;
    }
    assert data[..j] == data;
  }
}
